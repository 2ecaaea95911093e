# CnvHunter calling core in Dafny

This project models the copy-number-variant (CNV) calling pipeline of
CnvHunter (`src/CnvHunter/main.cpp`, ngs-bits), from the normalization of
the depth-of-coverage (DOC) data to the per-sample and per-region CNV
counts, together with the helpers the pipeline calls, and proves what each
stage guarantees.

The stages, in the order the program runs them, one module each:

- `Normalization`: every sample's coverage is divided by its
  length-weighted mean, taken separately over the autosomal regions and the
  chrX regions. Coverage on other chromosomes becomes 0, and low-depth
  samples are flagged.
- `RegionQc`: the cohort depth `avg_abs_cov` is computed. Each region gets
  its median and 1.428·MAD over the QC-passing samples, and the five
  region flags.
- `Correlation`: each sample gets a list with one similarity entry per
  sample of the cohort, sorted by descending score.
- `Reference`: each sample gets a reference value and a spread per region,
  built from its most similar QC-passing samples. A sample whose reference
  correlates badly is flagged.
- `Compaction`: a stable two-pointer partition removes bad samples and bad
  regions. The region vectors of every kept sample move in lock-step.
- `Calling`: `calculateZ`, `calculateCopies` and seed detection over the
  flat, sample-major result list.
- `Extension`: seed ranges grow left and right.
- `Merging`: touching ranges are merged, then gaps are bridged until a
  fixpoint.
- `Counts`: CNVs are counted per sample and per region.
- `Lookup`: `sampleByName`.
- `Preparation`: after the reference stage and compaction, every remaining
  reference is positive, which is what calling divides by.
- `Pipeline`: composes seeds, extension, merging and bridging.
- `Stats`: the library routines the stages use (sort, median, MAD, mean,
  bound).
- `CnvData`: the entities — regions, samples, results, ranges, z-scores —
  and `ExonData::operator<` and `Range::size`.

Modelling choices:

- **State.** Samples and regions are values held in sequences and
  addressed by their position. The program updates them through shared
  pointers; here an in-place field update is an update of one sequence
  element inside a method's loop.
- **Specification style.** Every loop of the program is a method proved
  equal to a specification function. The properties of the program are
  lemmas about those functions.
- **Doubles** are exact reals.
- **NaN.** A z-score of NaN is its own case, and every comparison with it
  is false. So NaN neither triggers the `|z| >= min_z` seed test, nor stops
  an extension on its z test, nor blocks a bridge.
- **Rounding.** C's `round` on the non-negative copy ratio is
  `floor(x + 0.5)`.
- **Library routines without source are parameters of the model:**
  `BasicStatistics::stdev`, `BasicStatistics::correlation` and
  `BedFile::overlapsWith`. `median`, `mad`, `mean` and `bound` are defined in
  `Stats`, and the median agrees with the library's own examples.
- **Chromosomes** are numbers: 1-22 are autosomes, 23 is chrX, 24 is chrY,
  and any other number is another contig.

Points where the code is followed as written:

- The reference scan (main.cpp:841-852) looks only at the first
  `samples.count() - 1` ranked entries. It filters on the QC flag only, not
  on `noref`.
- The ranked lists are sorted by a stable insertion sort. `std::sort`
  (main.cpp:825) leaves the order of equal correlations unspecified, and
  ties are certain: the sample's own entry and every `noref` entry are -1.
  Since the scan reads only `count - 1` ranks, which -1 entry is left out
  depends on that order. With the stable order and a `noref` sample
  present, the last `noref` sample is left out and the sample's own entry
  is scanned, so its own coverage may enter its reference. The `Reference`
  lemmas take the ranked list as a parameter, so they hold for any order
  of ties.
- `previousExists` (main.cpp:443-453) is never called by `main`; it is
  modelled with its property on the result layout, but no stage uses it.
- Samples are flagged during the reference loop, and a flagged sample is
  no longer used as a reference by the samples processed after it
  (`Reference.StageOrder`).
- The left extension stops at `i > 0`, so result 0 is never absorbed.
- Only kept samples' vectors are compacted.
- Bridging reads z-scores, samples and chromosomes from the results as the
  pass found them. It recomputes copy numbers only for the results that a
  range now covers and no range covered before.
- After bridging, a result inside a range may have copy number 2 (the
  recomputed value of a gap result). The model therefore keeps coverage and
  order after bridging, but not uniformity of copy numbers. It keeps
  uniformity when `ext_gap_span <= 0` (`Pipeline.CallCnvs`).

## Model

| member | source | states |
|---|---|---|
| CnvData.ExonLess | src/CnvHunter/main.cpp:84-90 | a region is less than another exactly when its chromosome is smaller, or equal with a smaller start, or equal start and smaller end |
| CnvData.ExonLessStrict | src/CnvHunter/main.cpp:84-90 | the region order is irreflexive, transitive and asymmetric |
| CnvData.ExonLessTotal | src/CnvHunter/main.cpp:84-90 | two regions with different coordinates are ordered one way or the other |
| CnvData.Size | src/CnvHunter/main.cpp:131-134 | the size of a range is the number of result indices its closed interval covers |
| CnvData.IntervalCardinality | src/CnvHunter/main.cpp:131-134 | a closed interval lo..hi holds hi - lo + 1 indices |
| Stats.SortAsc | src/CnvHunter/main.cpp:775 | sorting yields an ascending permutation of the input |
| Stats.MedianInBand | src/CnvHunter/main.cpp:776 | the median of values within [lo, hi] lies within [lo, hi] |
| Stats.MedianBetweenExtremes | src/CnvHunter/main.cpp:776 | the median of sorted data lies between its first and last value |
| Stats.MedianExamples | src/cppCORE-TEST/BasicStatistics_Test.h:9-18 | the median of 0.5, 1.0, 1.5 is 1.0 and that of 0.5, 0.8, 1.0, 1.5 is 0.9 |
| Stats.Mad | src/CnvHunter/main.cpp:777 | the median absolute deviation is never negative |
| Stats.MeanAtLeast | src/CnvHunter/main.cpp:751 | a mean of values that are all at least lo is at least lo |
| Stats.Bound | src/CnvHunter/main.cpp:417 | bound clamps to [lo, hi], returning the value itself when it is already in range |
| Normalization.WeightedMean | src/CnvHunter/main.cpp:428-441 | the weighted mean of no data is 0 |
| Normalization.ComputeWeightedMean | src/CnvHunter/main.cpp:428-441 | the two running sums give the weighted sum divided by the total weight |
| Normalization.ScaledByMeanHasMeanOne | src/CnvHunter/main.cpp:696-710 | dividing every value by a nonzero weighted mean gives data of weighted mean 1 |
| Normalization.CountRegions | src/CnvHunter/main.cpp:647-667 | c_chrx counts the chrX regions, and c_auto is all regions minus the chrX, chrY and other ones |
| Normalization.CountsMatchGroups | src/CnvHunter/main.cpp:667-691 | c_auto is the number of autosomal (coverage, length) pairs collected, and c_chrx the number of chrX pairs |
| Normalization.CollectGroups | src/CnvHunter/main.cpp:677-691 | the loop collects each group's (coverage, length) pairs in region order |
| Normalization.DivideByMeans | src/CnvHunter/main.cpp:696-710 | every entry becomes its normalized value: divided by the autosomal or chrX mean when that is positive, otherwise 0 |
| Normalization.NormalizeSample | src/CnvHunter/main.cpp:676-736 | one sample's loops compute exactly the normalized sample |
| Normalization.Normalize | src/CnvHunter/main.cpp:674-737 | every sample is replaced by its normalized form and the number of samples is unchanged |
| Normalization.NormalizedEntries | src/CnvHunter/main.cpp:696-710 | an autosomal entry is divided by a positive autosomal mean, a chrX entry by a positive chrX mean, and other entries are 0; name, references and correlations are unchanged and QC only grows |
| Normalization.DocMeanChoice | src/CnvHunter/main.cpp:713 | doc_mean is the chrX mean exactly when chrX regions outnumber autosomal ones, otherwise the autosomal mean |
| Normalization.DepthQc | src/CnvHunter/main.cpp:725-736 | an unflagged sample stays unflagged exactly when doc_mean reaches sam_min_depth and each non-empty group has a mean of at least 5 |
| Normalization.NormalizedGroupMeanIsOne | src/CnvHunter/main.cpp:692-710 | after normalization a group with a positive raw mean has a weighted mean of 1 |
| RegionQc.ComputeAverageDepth | src/CnvHunter/main.cpp:742-751 | avg_abs_cov is the mean doc_mean of the QC-passing samples |
| RegionQc.AverageDepthAtLeast | src/CnvHunter/main.cpp:742-751 | avg_abs_cov is at least any lower bound of the passing samples' doc_mean |
| RegionQc.CollectPassingDocs | src/CnvHunter/main.cpp:762-774 | the loop collects region e's coverage of the QC-passing samples in sample order |
| RegionQc.CheckRegion | src/CnvHunter/main.cpp:762-789 | one region gets its median, its 1.428-scaled MAD and its flags |
| RegionQc.CheckRegions | src/CnvHunter/main.cpp:742-790 | every region is checked, and avg_abs_cov is the passing samples' mean depth |
| RegionQc.RegionFlagsEmpty | src/CnvHunter/main.cpp:779-783 | no flag is raised exactly when none of the five conditions holds (ncov, cov, cv with IEEE division by a zero median, excluded, chrY) |
| RegionQc.KeptRegion | src/CnvHunter/main.cpp:775-786 | an unflagged region stays unflagged exactly when none of the five conditions holds for its median and scaled MAD |
| RegionQc.KeptMedianPositive | src/CnvHunter/main.cpp:776-780 | a region that passes QC has a positive median when reg_min_ncov is positive, or reg_min_cov is positive and the average depth is not negative |
| RegionQc.CheckedMediansPositive | src/CnvHunter/main.cpp:758-791 | under the same thresholds, every region that passes the QC stage has a positive median |
| RegionQc.RegionStatistics | src/CnvHunter/main.cpp:775-777 | the region median lies within any bounds of the passing samples' coverage, and the scaled MAD is not negative |
| Correlation.ComputeCrossSum | src/CnvHunter/main.cpp:815-819 | the loop sums (a[e]-1)*(b[e]-1) over all regions |
| Correlation.Entry | src/CnvHunter/main.cpp:802-820 | an entry names the other sample, and carries -1 for the sample itself and for noref samples |
| Correlation.Entries | src/CnvHunter/main.cpp:800-822 | sample i's list has one entry per sample, entry j for sample j |
| Correlation.SortDesc | src/CnvHunter/main.cpp:825 | sorting gives a permutation in descending order of correlation |
| Correlation.RankSample | src/CnvHunter/main.cpp:800-825 | the inner loop and the sort compute the ranked sample |
| Correlation.RankAll | src/CnvHunter/main.cpp:797-826 | every sample is ranked, and nothing but the correlation lists changes |
| Correlation.RankedFresh | src/CnvHunter/main.cpp:800-825 | a list built from empty is the sorted entries |
| Correlation.RankedEntries | src/CnvHunter/main.cpp:800-825 | every entry of a ranked list is the entry of an existing sample |
| Correlation.RankedList | src/CnvHunter/main.cpp:800-825 | a ranked list holds every sample's entry exactly once, sorted descending, with -1 for itself and for noref samples |
| Correlation.SortedOnce | src/CnvHunter/main.cpp:825 | the sorted list holds each sample's entry exactly once |
| Reference.CollectValues | src/CnvHunter/main.cpp:841-852 | the scan with its early break yields the capped collection |
| Reference.CollectStaysFull | src/CnvHunter/main.cpp:851 | once n values are held, further ranks change nothing |
| Reference.CollectIsTake | src/CnvHunter/main.cpp:841-852 | the capped scan is the first n of all accepted values |
| Reference.AcceptedFrom | src/CnvHunter/main.cpp:843-848 | every accepted value comes from a QC-passing sample among the scanned ranks and lies in [0.25 m, 1.75 m] |
| Reference.CollectedValues | src/CnvHunter/main.cpp:841-852 | the scan holds at most n values, each from a passing sample among the first count-1 ranks and in the band; fewer than n means every such value was taken |
| Reference.RefOfValues | src/CnvHunter/main.cpp:853-865 | with n values the reference is their median and the spread is at least 1.428·MAD and 0.1·median; otherwise they are m and 0.3·m |
| Reference.RefPositiveFromMedian | src/CnvHunter/main.cpp:853-865 | a positive region median gives a positive reference and spread |
| Reference.RegionReference | src/CnvHunter/main.cpp:838-865 | the scan plus the statistics compute the region's reference and spread |
| Reference.RefValues | src/CnvHunter/main.cpp:836-897 | there is one reference statistic per region, region e's from the sample's ranked list and the region median |
| Reference.RegionLoop | src/CnvHunter/main.cpp:836-897 | the region loop appends exactly one reference value and one spread per region, in region order |
| Reference.BuildSampleReference | src/CnvHunter/main.cpp:836-904 | one sample gets its references, its reference correlation and, when that is low, the flag |
| Reference.WithReferenceFacts | src/CnvHunter/main.cpp:836-904 | building appends one value and one spread per region, adds the corr flag exactly when the correlation is below sam_min_corr, and changes nothing else |
| Reference.ReferenceStage | src/CnvHunter/main.cpp:834-911 | processing the first k samples keeps coverage and ranked lists and leaves later samples untouched |
| Reference.BuildReferences | src/CnvHunter/main.cpp:834-911 | the sample loop computes the stage over all samples, in order |
| Reference.ReferencesPositive | src/CnvHunter/main.cpp:833-866 | after the sample loop every sample holds one more reference and spread per region, and they are positive for every region whose median is positive, for any ranking |
| Reference.StageOrder | src/CnvHunter/main.cpp:834-911 | sample s is processed in the state left by the samples before it, so flags set earlier affect its reference |
| Compaction.SampleStep | src/CnvHunter/main.cpp:920-931 | one iteration moves a passing sample to position `to` or appends a failing one to the removed list |
| Compaction.RemoveBadSamples | src/CnvHunter/main.cpp:918-932 | the kept list is the passing samples in order, and the removed list the rest in order |
| Compaction.SamplePartition | src/CnvHunter/main.cpp:918-932 | kept and removed together account for every sample; kept ones have empty QC, removed ones not, and every sample lands on its side |
| Compaction.PositionsIncreasing | src/CnvHunter/main.cpp:919-931 | the partition is stable: selected positions are strictly increasing |
| Compaction.PositionsComplete | src/CnvHunter/main.cpp:919-931 | every entry with the wanted flag is selected |
| Compaction.PositionsSplit | src/CnvHunter/main.cpp:919-931 | the kept and removed positions add up to all entries |
| Compaction.MoveEntries | src/CnvHunter/main.cpp:945-950 | every kept sample's doc, ref and ref_stdev entry `from` is copied to `to` |
| Compaction.Resize | src/CnvHunter/main.cpp:960-965 | every sample's three vectors are cut to their first n entries |
| Compaction.ExonMoved | src/CnvHunter/main.cpp:941-944 | a passing region moves to position `to` and is renumbered `to` |
| Compaction.ExonInPlace | src/CnvHunter/main.cpp:939-952 | a passing region already in place keeps its number |
| Compaction.ExonDropped | src/CnvHunter/main.cpp:954-957 | a failing region is appended to the removed regions |
| Compaction.RegionStep | src/CnvHunter/main.cpp:937-958 | one iteration of the region loop keeps the loop state of regions and samples |
| Compaction.ExonsDone | src/CnvHunter/main.cpp:959 | after the loop the first `to` regions are the kept ones |
| Compaction.RegionsDone | src/CnvHunter/main.cpp:960-965 | after the cut every sample is its compacted form |
| Compaction.RemoveBadRegions | src/CnvHunter/main.cpp:935-965 | the kept regions are the passing ones in order and renumbered, the removed ones the rest, and every kept sample is compacted |
| Compaction.ExonPartition | src/CnvHunter/main.cpp:935-959 | kept and removed regions account for every region; kept ones have empty QC and index equal to their position |
| Compaction.CompactedCohort | src/CnvHunter/main.cpp:937-965 | every kept sample has one entry per kept region, and entry k is the old entry of the k-th kept region |
| Preparation.CohortCallable | src/CnvHunter/main.cpp:419-425 | samples that enter the reference stage with empty references leave it aligned, and the compacted cohort has a positive reference everywhere when every region that passed QC has a positive median |
| Preparation.KeptPositive | src/CnvHunter/main.cpp:934-965 | compaction keeps only the references of the regions that passed QC, so a positive median for those gives positive references in the compacted cohort |
| Calling.ZScoreRange | src/CnvHunter/main.cpp:410-418 | calculateZ is NaN exactly when ref_stdev or ref is 0; otherwise it lies in [-10, 10] and equals the raw score when that is in range |
| Calling.RoundClose | src/CnvHunter/main.cpp:425 | rounding is within half of the value |
| Calling.CopiesCases | src/CnvHunter/main.cpp:420-426 | the copy number is 0 exactly below a ratio of 0.2, 1 below 1.0, and otherwise the rounded ratio, at least 1 |
| Calling.CopiesMonotone | src/CnvHunter/main.cpp:420-426 | the copy number never decreases as the ratio grows |
| Calling.CopiesVersusTwo | src/CnvHunter/main.cpp:420-426 | fewer than 2 copies exactly when the ratio is below 1.5, more than 2 exactly when it is at least 2.5 |
| Calling.Row | src/CnvHunter/main.cpp:977-1002 | a sample's row has one result per region, the result of that pair |
| Calling.Rows | src/CnvHunter/main.cpp:975-1003 | k samples give k·E results |
| Calling.RowsLayout | src/CnvHunter/main.cpp:975-1001 | result i of the first k samples is that of the pair with flat index s·E + e = i |
| Calling.SeedPair | src/CnvHunter/main.cpp:980-998 | one pair gets its result, and a one-result seed of DEL or INS type exactly when copies is not 2 |
| Calling.SeedStep | src/CnvHunter/main.cpp:977-1002 | one region appends its result and its seed, keeping the loop state |
| Calling.DetectSampleSeeds | src/CnvHunter/main.cpp:977-1002 | a sample's loop appends its row and keeps the seeds those of all results |
| Calling.DetectSeeds | src/CnvHunter/main.cpp:971-1003 | the seed loops yield the result layout and one seed per result whose copy number is not 2 |
| Calling.ResultLayout | src/CnvHunter/main.cpp:975-1001 | result i belongs to sample i div E and region i mod E, carries that pair's z-score, and has copies other than 2 only when the seed test fired, with calculateCopies as its value |
| Calling.ResultAt | src/CnvHunter/main.cpp:975-1001 | the pair (s, e) is result s·E + e |
| Calling.ResultsReferToCohort | src/CnvHunter/main.cpp:981 | every result refers to an existing sample and region |
| Calling.SeedRangesShape | src/CnvHunter/main.cpp:991-998 | every seed is a single result with copies not 2, of that result's sample, and DEL exactly when copies is below 2 |
| Calling.SeedRangesOrdered | src/CnvHunter/main.cpp:997 | seeds are in strictly increasing order |
| Calling.SeedRangesComplete | src/CnvHunter/main.cpp:991-998 | every result whose copy number is not 2 starts a seed |
| Calling.PreviousExistsOnLayout | src/CnvHunter/main.cpp:443-453 | on the result layout a previous result exists exactly when the result is not its sample's first region and the region before it is on the same chromosome (the program never calls `previousExists`) |
| Extension.ExtendLeft | src/CnvHunter/main.cpp:1017-1041 | the left walk only moves the start down, never to 0, absorbs only absorbable results and stops where the next one is not absorbable |
| Extension.ExtendRight | src/CnvHunter/main.cpp:1043-1067 | the right walk only moves the end up within the results and stops where the next one is not absorbable |
| Extension.ExtendRange | src/CnvHunter/main.cpp:1014-1067 | both walks grow the range over absorbable results only, which take their recomputed copy number, and leave it unable to grow |
| Extension.StepStuck | src/CnvHunter/main.cpp:1019-1045 | a neighbour that could not join a range still cannot after another range is extended |
| Extension.ExtendStep | src/CnvHunter/main.cpp:1012-1068 | one extension keeps ranges ordered, uniform and covering, and keeps earlier ranges unable to grow |
| Extension.OnlyAbsorbedTrans | src/CnvHunter/main.cpp:1036 | results changed over two extensions were changed from copy number 2 to their recomputed value |
| Extension.ExtendAll | src/CnvHunter/main.cpp:1012-1068 | after extension the ranges are disjoint, ordered, of one sample, chromosome and type, cover every non-2 result, absorbed only results of copy number 2 (never result 0), and none can grow |
| Extension.SeedsUniform | src/CnvHunter/main.cpp:997 | every seed is one result of its own sample and type |
| Extension.SeedsCovered | src/CnvHunter/main.cpp:991-998 | every result whose copy number is not 2 is a seed |
| Extension.SeedsInv | src/CnvHunter/main.cpp:971-1003 | the seeds satisfy the range invariant |
| Merging.MergeAll | src/CnvHunter/main.cpp:1076-1087 | the merge pass never adds ranges and keeps the first range's start, sample and type |
| Merging.MergeStep | src/CnvHunter/main.cpp:1078-1086 | one step extends the folded suffix by range r |
| Merging.MergeAdjacent | src/CnvHunter/main.cpp:1076-1087 | the right-to-left loop computes the merge fold |
| Merging.MergeAllOrdered | src/CnvHunter/main.cpp:1076-1087 | merging keeps ranges well formed and ordered |
| Merging.MergeAllCovers | src/CnvHunter/main.cpp:1085-1086 | merging covers exactly the results covered before |
| Merging.MergeAllUniform | src/CnvHunter/main.cpp:1080-1083 | merged ranges still hold results of one sample, chromosome and type |
| Merging.MergeAllInv | src/CnvHunter/main.cpp:1076-1087 | merging keeps the range invariant |
| Merging.MergeAllMaximal | src/CnvHunter/main.cpp:1080-1083 | after one pass no two neighbours are mergeable |
| Merging.MergeAllFixed | src/CnvHunter/main.cpp:1076-1087 | a list without mergeable neighbours is unchanged |
| Merging.MergeAllIdempotent | src/CnvHunter/main.cpp:1076-1087 | a second merge pass changes nothing |
| Merging.StuckJoin | src/CnvHunter/main.cpp:1085 | joining two ranges that cannot grow gives one that cannot grow |
| Merging.MergeAllStuck | src/CnvHunter/main.cpp:1076-1087 | merged ranges still cannot grow |
| Merging.BridgeAll | src/CnvHunter/main.cpp:1097-1133 | a bridging pass never adds ranges and keeps the first range's start, sample and type |
| Merging.BridgeAllSame | src/CnvHunter/main.cpp:1094-1135 | a pass that joins nothing leaves the list unchanged, and then no neighbours are bridgeable |
| Merging.BridgeAllOrdered | src/CnvHunter/main.cpp:1097-1133 | bridging keeps ranges well formed and ordered |
| Merging.BridgeAllCovers | src/CnvHunter/main.cpp:1130-1132 | every result covered before bridging is still covered |
| Merging.GapTrend | src/CnvHunter/main.cpp:1108-1122 | the trend loop accepts exactly when no gap result has z < 0 for INS or z > 0 for DEL (NaN passes) |
| Merging.RecomputeGap | src/CnvHunter/main.cpp:1125-1128 | exactly the gap results get their recomputed copy number |
| Merging.BridgeTest | src/CnvHunter/main.cpp:1101-1122 | the tests accept exactly same type, sample and chromosome, gap at most ext_gap_span/100 of the sizes, and no wrong trend |
| Merging.SpliceOrdered | src/CnvHunter/main.cpp:1131-1132 | joining two neighbours of an ordered list keeps it ordered |
| Merging.BridgeStepRecomputed | src/CnvHunter/main.cpp:1124-1132 | one bridge keeps order and coverage, and copy numbers change only for newly covered results |
| Merging.BridgeStep | src/CnvHunter/main.cpp:1099-1133 | one iteration keeps the pass state |
| Merging.BridgePass | src/CnvHunter/main.cpp:1096-1134 | one pass computes the bridging fold, and recomputes copies exactly for newly covered results |
| Merging.RecomputedTrans | src/CnvHunter/main.cpp:1094-1135 | recomputation composes over successive passes |
| Merging.BridgeGaps | src/CnvHunter/main.cpp:1090-1136 | nothing changes when ext_gap_span <= 0; otherwise passes repeat until no neighbours are bridgeable, ranges stay ordered, coverage only grows and copies change only for newly covered results |
| Merging.BridgedCovered | src/CnvHunter/main.cpp:1090-1136 | after bridging every result whose copy number is not 2 lies in a range |
| Counts.AddRange | src/CnvHunter/main.cpp:1147-1153 | each region's count grows by the CNVs of that region inside the range |
| Counts.CountCnvs | src/CnvHunter/main.cpp:1142-1154 | the per-sample count is the number of that sample's ranges, and the per-region count the number of its CNV results inside the ranges |
| Counts.SampleCountsTotal | src/CnvHunter/main.cpp:1146 | the per-sample counts add up to the number of ranges |
| Counts.SampleCountPositive | src/CnvHunter/main.cpp:1146 | a sample's count is positive exactly when one of the ranges is its own |
| Counts.ExonCountsTotal | src/CnvHunter/main.cpp:1147-1153 | the per-region counts add up to the CNV results inside the ranges |
| Counts.CnvsInFull | src/CnvHunter/main.cpp:1149-1152 | a range with no copy number 2 contributes its size |
| Lookup.Search | src/CnvHunter/main.cpp:284-290 | the search loop returns the position of the first sample with the name, or the length |
| Lookup.CollectNames | src/CnvHunter/main.cpp:303-311 | the error message's names are the kept names followed by the removed names |
| Lookup.LookupSample | src/CnvHunter/main.cpp:281-313 | the loops compute the lookup: kept samples first, then removed ones, then the error |
| Lookup.FoundSample | src/CnvHunter/main.cpp:281-299 | a sample is found exactly when a kept sample has the name, or a removed one has it and removed samples are accepted; a kept match wins |
| Lookup.FailedQcCase | src/CnvHunter/main.cpp:293-300 | the QC error arises exactly when only a removed sample has the name and removed samples are not accepted, and carries its QC |
| Lookup.InvalidCase | src/CnvHunter/main.cpp:302-312 | the name is invalid exactly when no sample has it; the error lists all names, and the name is not among them |
| Pipeline.CallCnvs | src/CnvHunter/main.cpp:971-1136 | seeds, extension, merge and bridging give ordered, disjoint ranges covering every non-2 result, with the seed layout's samples, regions and z-scores; without bridging the ranges are uniform, unmergeable and cannot grow, with bridging no neighbours are bridgeable |

## Left out

- Input loading and its checks (coverage files, start order within a chromosome, matching coordinates, column counts, at least n+1 input files) are file I/O. The loader gives one coverage value per region and sample; the model takes that as a precondition.
- Normalization.PositiveLengths: the loader accepts a region with `end <= start`, whose length used as a weight (main.cpp:685, 689) is 0 or negative. The normalization members require every region's `end - start` to be positive; such regions are not modelled.
- Reference.CollectValues, Reference.RegionReference, Reference.RegionLoop, Reference.BuildSampleReference, Reference.BuildReferences, Reference.RefOfValues, Reference.RefPositiveFromMedian: the loader accepts any `n`, but these require `n >= 1`. With a negative `n` the cap at main.cpp:851 never fires and every reference is the region median with spread 0.3·median; with `n == 0` the scan can stop with no value and take the median of an empty list. Neither case is modelled.
- RegionQc.ComputeAverageDepth, RegionQc.CheckRegions: every region-QC member requires at least one sample that passed the depth QC. The depth QC (main.cpp:725-736) can flag every sample; the program then takes the mean (main.cpp:751) and the median (main.cpp:776) of an empty list, whose library result is not part of this model. The model assumes a passing sample exists.
- Calling.Callable: calling requires every reference to be positive, because `calculateCopies` divides by it (main.cpp:421, called at 988, 1024, 1050 and 1127). The program also runs with a zero reference, where `calculateZ` returns NaN (main.cpp:411-414); that can happen only when both reg_min_ncov and reg_min_cov are at most 0, and that case is not modelled. For positive thresholds, `RegionQc.CheckedMediansPositive` and `Preparation.CohortCallable` prove that the cohort passed to calling meets the requirement.
- Correlation.SortDesc: the model fixes the stable order among equal correlations, where the program's `std::sort` leaves it unspecified; the `Reference` lemmas take the ranked list as a parameter and hold for any order.
- Report writers (`storeResultAsTSV`, `storeSampleInfo`, `storeRegionInfo`, `storeDebugInfo`, `storeSegFile`), histogram and statistics printing, timing, and the console counters `c_bad_sample`, `c_bad_region`, `c_extended` are output only.
- The warning printed for an outlier whose copy number rounds to 2 is console output; the model keeps the result without a seed, as the program does.
- `geneNames` queries a database and is not part of this model.
- `BasicStatistics::stdev`, `BasicStatistics::correlation` and `BedFile::overlapsWith` are not part of this model; they are parameters.
- The `isValidFloat` exceptions and all non-finite doubles are left out: values are exact reals, a region's length must be positive and a sample's spread nonzero where the program divides by them.
- Calling.CalculateCopies: C's `round` returns an int, and a ratio beyond the 32-bit range would overflow; the model's integers are unbounded.
- Counts.CountCnvs: the program's hash maps accept any sample or region key; the model requires every range's sample and every result's region to be an existing handle, which the pipeline guarantees.
- Counts.CountCnvs, Pipeline.CallCnvs: the counts are not connected to `CallCnvs`'s output by a single lemma; `CountCnvs` takes any countable result and range lists.
- Floating-point rounding of the sums and divisions is not modelled (reals are exact).

/** The entities of CnvHunter: regions (exons), samples, per-(sample, region)
    results and CNV ranges.

    The source holds samples and regions behind shared pointers and updates
    their fields in place. Here every entity is a value; a sample or region is
    addressed by an integer handle (its position in the list it lives in), and
    an in-place field update becomes an update of that list element. */
module CnvData {

  /** A chromosome, encoded by number: 1..22 are the autosomes, 23 is chrX,
      24 is chrY, every other number is another contig (chrM, unplaced, ...).
      Chromosomes compare by this number. */
  datatype Chromosome = Chromosome(num: int)
  {
    predicate IsAutosome() { 1 <= num <= 22 }
    predicate IsX() { num == 23 }
    predicate IsY() { num == 24 }
  }

  /** Why a region failed QC (one entry per message appended to ExonData::qc). */
  datatype RegionFlag =
    | LowNormalizedCoverage(minNcov: real)  // "ncov<"
    | LowCoverage(minCov: real)             // "cov<"
    | HighVariation(maxCv: real)            // "cv>"
    | Excluded                              // "excluded"
    | OnChrY                                // "chrY"

  /** Why a sample failed QC (one entry per message appended to SampleData::qc). */
  datatype SampleFlag =
    | LowDepth(depth: real)             // "avg_depth="
    | LowDepthChrX(depth: real)         // "avg_depth_chrx="
    | LowDepthAutosomes(depth: real)    // "avg_depth_autosomes="
    | LowReferenceCorrelation(correl: real)  // "corr="

  /** ExonData: a target region. `index` addresses the samples' coverage vectors. */
  datatype Exon = Exon(
    chr: Chromosome,
    start: int,
    end: int,
    index: int,
    median: real,
    mad: real,
    qc: seq<RegionFlag>)

  /** ExonData::operator<: lexicographic on (chr, start, end). */
  function ExonLess(a: Exon, b: Exon): (r: bool)
    ensures r <==> a.chr.num < b.chr.num
                   || (a.chr.num == b.chr.num && a.start < b.start)
                   || (a.chr.num == b.chr.num && a.start == b.start && a.end < b.end)
  {
    if a.chr.num < b.chr.num then true
    else if a.chr.num > b.chr.num then false
    else if a.start == b.start then a.end < b.end
    else a.start < b.start
  }

  /** The region order is a strict order: irreflexive and transitive ... */
  lemma ExonLessStrict(a: Exon, b: Exon, c: Exon)
    ensures !ExonLess(a, a)
    ensures ExonLess(a, b) && ExonLess(b, c) ==> ExonLess(a, c)
    ensures ExonLess(a, b) ==> !ExonLess(b, a)
  {
  }

  /** ... and total on regions with distinct coordinates. */
  lemma ExonLessTotal(a: Exon, b: Exon)
    requires (a.chr, a.start, a.end) != (b.chr, b.start, b.end)
    ensures ExonLess(a, b) || ExonLess(b, a)
  {
  }

  /** SampleCorrelation: another sample (by handle) and its similarity score. */
  datatype SampleCorrelation = SampleCorrelation(sample: nat, correlation: real)

  /** SampleData. `noref` marks samples that must not serve as reference. */
  datatype Sample = Sample(
    name: string,
    noref: bool,
    doc: seq<real>,
    docMean: real,
    docStdev: real,
    correlAll: seq<SampleCorrelation>,
    ref: seq<real>,
    refStdev: seq<real>,
    refCorrel: real,
    qc: seq<SampleFlag>)

  /** A z-score; NaN compares false with everything. */
  datatype ZScore = NaN | Z(value: real)
  {
    predicate AtMost(x: real) { Z? && value <= x }
    predicate AtLeast(x: real) { Z? && value >= x }
    predicate Below(x: real) { Z? && value < x }
    predicate Above(x: real) { Z? && value > x }
  }

  /** ResultData: the test result of one (sample, region) pair, both by handle. */
  datatype ResultData = ResultData(sample: nat, exon: nat, z: ZScore, copies: int)

  datatype CnvType = Ins | Del

  /** Range: a closed interval [start, end] of indices into the flat result list. */
  datatype Range = Range(sample: nat, start: int, end: int, kind: CnvType)

  /** The result indices a closed interval covers. */
  function IndexSet(lo: int, hi: int): (r: set<int>)
    ensures forall i :: i in r <==> lo <= i <= hi
    decreases hi - lo
  {
    if lo > hi then {} else IndexSet(lo, hi - 1) + {hi}
  }

  /** Range::size: the number of results the closed interval covers. */
  function Size(r: Range): (n: int)
    ensures n == |IndexSet(r.start, r.end)| || (r.start > r.end && n <= 0)
  {
    if r.start <= r.end then
      IntervalCardinality(r.start, r.end);
      r.end - r.start + 1
    else
      r.end - r.start + 1
  }

  lemma {:induction false} IntervalCardinality(lo: int, hi: int)
    requires lo <= hi
    ensures |IndexSet(lo, hi)| == hi - lo + 1
    decreases hi - lo
  {
    if lo < hi {
      IntervalCardinality(lo, hi - 1);
      assert hi !in IndexSet(lo, hi - 1);
    }
  }

  /** The samples and regions that survived QC, frozen for CNV calling. */
  datatype Cohort = Cohort(samples: seq<Sample>, exons: seq<Exon>)

  /** State after compaction: every region's index is its position and every
      sample holds one coverage, reference and spread value per region. */
  predicate Compacted(c: Cohort)
  {
    && (forall e :: 0 <= e < |c.exons| ==> c.exons[e].index == e)
    && (forall s :: 0 <= s < |c.samples| ==>
          |c.samples[s].doc| == |c.exons| && |c.samples[s].ref| == |c.exons|
          && |c.samples[s].refStdev| == |c.exons|)
  }

  /** Every reference value is positive, so coverage ratios are defined. */
  predicate RefPositive(c: Cohort)
    requires Compacted(c)
  {
    forall s, e :: 0 <= s < |c.samples| && 0 <= e < |c.exons| ==> c.samples[s].ref[e] > 0.0
  }

  /** The results refer to existing samples and regions. */
  predicate ResultsRefer(c: Cohort, results: seq<ResultData>)
  {
    forall i :: 0 <= i < |results| ==>
      results[i].sample < |c.samples| && results[i].exon < |c.exons|
  }

  function ChrOf(c: Cohort, results: seq<ResultData>, i: int): Chromosome
    requires ResultsRefer(c, results) && 0 <= i < |results|
  {
    c.exons[results[i].exon].chr
  }
}

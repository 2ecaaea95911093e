/** Extension of the seed ranges (main.cpp, "extending initial CNVs in both
    directions"): every range, in order, grows to the left and to the right
    over neighbouring results of the same sample and chromosome whose copy
    number is still 2, whose z-score does not contradict the range's
    direction and whose recomputed copy number does agree with it. Absorbed
    results take the recomputed copy number. */
module Extension {
  import opened CnvData
  import opened Calling

  /** The results refer to a callable cohort. */
  predicate Wf(c: Cohort, results: seq<ResultData>)
  {
    Callable(c) && ResultsRefer(c, results)
  }

  /** calculateCopies for result i. */
  function CopiesAt(c: Cohort, results: seq<ResultData>, i: int): int
    requires Wf(c, results) && 0 <= i < |results|
  {
    CalculateCopies(c.samples[results[i].sample], c.exons[results[i].exon])
  }

  /** A copy number agrees with the range type: below 2 for a deletion,
      above 2 for a duplication. */
  predicate Typed(kind: CnvType, copies: int)
  {
    if kind == Del then copies < 2 else copies > 2
  }

  /** The direction test of one extension step. A NaN z-score passes it,
      since no comparison with NaN holds. */
  predicate TrendOk(kind: CnvType, z: ZScore, copies: int, p: CallParams)
  {
    if kind == Del then !z.Above(-p.extMinZ) && copies < 2
    else !z.Below(p.extMinZ) && copies > 2
  }

  /** Result i can join range `rg`, whose chromosome is `chr`. */
  predicate Absorbable(c: Cohort, results: seq<ResultData>, i: int, rg: Range, chr: Chromosome, p: CallParams)
    requires Wf(c, results)
  {
    && 0 <= i < |results|
    && results[i].copies == 2
    && results[i].sample == rg.sample
    && ChrOf(c, results, i) == chr
    && TrendOk(rg.kind, results[i].z, CopiesAt(c, results, i), p)
  }

  /** Neither neighbour of `rg` can join it; the left walk never looks at
      result 0. */
  predicate Stuck(c: Cohort, results: seq<ResultData>, rg: Range, p: CallParams)
    requires Wf(c, results) && 0 <= rg.start < |results|
  {
    var chr := ChrOf(c, results, rg.start);
    && (rg.start - 1 <= 0 || !Absorbable(c, results, rg.start - 1, rg, chr, p))
    && !Absorbable(c, results, rg.end + 1, rg, chr, p)
  }

  /** The left walk: i runs down from start - 1 while i > 0 and result i
      still has copy number 2. */
  method ExtendLeft(c: Cohort, results: seq<ResultData>, rg: Range, chr: Chromosome, p: CallParams)
    returns (results': seq<ResultData>, rg': Range)
    requires Wf(c, results) && 0 <= rg.start < |results|
    ensures rg' == rg.(start := rg'.start)
    ensures 0 <= rg'.start <= rg.start && (rg'.start == rg.start || rg'.start >= 1)
    ensures |results'| == |results|
    ensures forall j :: 0 <= j < |results| ==>
              if rg'.start <= j < rg.start then
                Absorbable(c, results, j, rg, chr, p) && results'[j] == results[j].(copies := CopiesAt(c, results, j))
              else results'[j] == results[j]
    ensures rg'.start - 1 <= 0 || !Absorbable(c, results, rg'.start - 1, rg, chr, p)
  {
    results' := results;
    rg' := rg;
    var i := rg.start - 1;
    while i > 0 && results'[i].copies == 2
      invariant -1 <= i < rg.start && rg' == rg.(start := i + 1) && (i == rg.start - 1 || i >= 0)
      invariant |results'| == |results|
      invariant forall j :: 0 <= j < |results| ==>
                  if i < j < rg.start then
                    Absorbable(c, results, j, rg, chr, p) && results'[j] == results[j].(copies := CopiesAt(c, results, j))
                  else results'[j] == results[j]
      decreases i
    {
      var curr := results'[i];
      if curr.sample != rg.sample { break; }
      if c.exons[curr.exon].chr != chr { break; }
      var copies := CalculateCopies(c.samples[curr.sample], c.exons[curr.exon]);
      if rg.kind == Del {
        if curr.z.Above(-p.extMinZ) { break; }
        if copies >= 2 { break; }
      } else {
        if curr.z.Below(p.extMinZ) { break; }
        if copies <= 2 { break; }
      }
      results' := results'[i := results'[i].(copies := copies)];
      rg' := rg'.(start := i);
      i := i - 1;
    }
  }

  /** The right walk: i runs up from end + 1 while result i exists and still
      has copy number 2. */
  method ExtendRight(c: Cohort, results: seq<ResultData>, rg: Range, chr: Chromosome, p: CallParams)
    returns (results': seq<ResultData>, rg': Range)
    requires Wf(c, results) && 0 <= rg.end < |results|
    ensures rg' == rg.(end := rg'.end)
    ensures rg.end <= rg'.end < |results|
    ensures |results'| == |results|
    ensures forall j :: 0 <= j < |results| ==>
              if rg.end < j <= rg'.end then
                Absorbable(c, results, j, rg, chr, p) && results'[j] == results[j].(copies := CopiesAt(c, results, j))
              else results'[j] == results[j]
    ensures !Absorbable(c, results, rg'.end + 1, rg, chr, p)
  {
    results' := results;
    rg' := rg;
    var i := rg.end + 1;
    while i < |results'| && results'[i].copies == 2
      invariant rg.end < i <= |results| && rg' == rg.(end := i - 1)
      invariant |results'| == |results|
      invariant forall j :: 0 <= j < |results| ==>
                  if rg.end < j < i then
                    Absorbable(c, results, j, rg, chr, p) && results'[j] == results[j].(copies := CopiesAt(c, results, j))
                  else results'[j] == results[j]
      decreases |results| - i
    {
      var curr := results'[i];
      if curr.sample != rg.sample { break; }
      if c.exons[curr.exon].chr != chr { break; }
      var copies := CalculateCopies(c.samples[curr.sample], c.exons[curr.exon]);
      if rg.kind == Del {
        if curr.z.Above(-p.extMinZ) { break; }
        if copies >= 2 { break; }
      } else {
        if curr.z.Below(p.extMinZ) { break; }
        if copies <= 2 { break; }
      }
      results' := results'[i := results'[i].(copies := copies)];
      rg' := rg'.(end := i);
      i := i + 1;
    }
  }

  /** Result j was absorbed when `rg` grew to `rg'`. */
  predicate Absorbed(rg: Range, rg': Range, j: int)
  {
    rg'.start <= j < rg.start || rg.end < j <= rg'.end
  }

  /** `rg'` and `results'` are what extending `rg` in `results` yields: it
      grew over absorbable results only, which took their recomputed copy
      number, nothing else changed, and it cannot grow further. */
  predicate Extended(c: Cohort, results: seq<ResultData>, rg: Range, results': seq<ResultData>, rg': Range,
                     p: CallParams)
    requires Wf(c, results) && 0 <= rg.start <= rg.end < |results|
  {
    var chr := ChrOf(c, results, rg.start);
    && rg' == rg.(start := rg'.start, end := rg'.end)
    && 0 <= rg'.start <= rg.start && (rg'.start == rg.start || rg'.start >= 1)
    && rg.end <= rg'.end < |results|
    && |results'| == |results|
    && (forall j :: 0 <= j < |results| ==>
          if Absorbed(rg, rg', j) then
            Absorbable(c, results, j, rg, chr, p) && results'[j] == results[j].(copies := CopiesAt(c, results, j))
          else results'[j] == results[j])
    && (rg'.start - 1 <= 0 || !Absorbable(c, results, rg'.start - 1, rg, chr, p))
    && !Absorbable(c, results, rg'.end + 1, rg, chr, p)
  }

  /** Both walks for one range; the chromosome is taken from the range's
      start before it moves. */
  method ExtendRange(c: Cohort, results: seq<ResultData>, rg: Range, p: CallParams)
    returns (results': seq<ResultData>, rg': Range)
    requires Wf(c, results) && 0 <= rg.start <= rg.end < |results|
    ensures Extended(c, results, rg, results', rg', p)
  {
    var chr := c.exons[results[rg.start].exon].chr;
    var results1, rg1 := ExtendLeft(c, results, rg, chr, p);
    assert Wf(c, results1) by {
      forall i | 0 <= i < |results1|
        ensures results1[i].sample < |c.samples| && results1[i].exon < |c.exons|
      {
        assert results1[i].sample == results[i].sample && results1[i].exon == results[i].exon;
      }
    }
    results', rg' := ExtendRight(c, results1, rg1, chr, p);
    forall j | rg.end < j < |results|
      ensures Absorbable(c, results1, j, rg1, chr, p) <==> Absorbable(c, results, j, rg, chr, p)
    {
      assert results1[j] == results[j];
    }
  }

  // ---------------------------------------------------------------------
  // The invariant of the range list

  predicate RangesWf(results: seq<ResultData>, ranges: seq<Range>)
  {
    forall r :: 0 <= r < |ranges| ==> 0 <= ranges[r].start <= ranges[r].end < |results|
  }

  /** Neighbouring ranges are disjoint and in increasing order. */
  predicate Ordered(ranges: seq<Range>)
  {
    forall r :: 0 <= r < |ranges| - 1 ==> ranges[r].end < ranges[r + 1].start
  }

  /** Result i fits range `rg`: same sample, same chromosome as its start,
      and a copy number of the range's type. */
  predicate Fits(c: Cohort, results: seq<ResultData>, rg: Range, i: int)
    requires Wf(c, results) && 0 <= rg.start < |results| && 0 <= i < |results|
  {
    && results[i].sample == rg.sample
    && ChrOf(c, results, i) == ChrOf(c, results, rg.start)
    && Typed(rg.kind, results[i].copies)
  }

  predicate Uniform(c: Cohort, results: seq<ResultData>, ranges: seq<Range>)
    requires Wf(c, results) && RangesWf(results, ranges)
  {
    forall r, i :: 0 <= r < |ranges| && ranges[r].start <= i <= ranges[r].end ==> Fits(c, results, ranges[r], i)
  }

  predicate Covers(ranges: seq<Range>, i: int)
  {
    exists r :: 0 <= r < |ranges| && ranges[r].start <= i <= ranges[r].end
  }

  /** Every result whose copy number is not 2 lies in a range. */
  predicate CoveredAll(results: seq<ResultData>, ranges: seq<Range>)
  {
    forall i :: 0 <= i < |results| && results[i].copies != 2 ==> Covers(ranges, i)
  }

  predicate Inv(c: Cohort, results: seq<ResultData>, ranges: seq<Range>)
  {
    && Wf(c, results)
    && RangesWf(results, ranges)
    && Ordered(ranges)
    && Uniform(c, results, ranges)
    && CoveredAll(results, ranges)
  }

  /** `results'` differs from `results` only in copy numbers that were 2 and
      became the recomputed copy number, which is not 2. */
  predicate OnlyAbsorbed(c: Cohort, results: seq<ResultData>, results': seq<ResultData>)
    requires Wf(c, results)
  {
    && |results'| == |results|
    && forall j :: 0 <= j < |results| ==>
         || results'[j] == results[j]
         || (results[j].copies == 2 && CopiesAt(c, results, j) != 2
             && results'[j] == results[j].(copies := CopiesAt(c, results, j)))
  }

  /** `rg'` contains `rg` and has its sample and type. */
  predicate Grown(rg: Range, rg': Range)
  {
    rg' == rg.(start := rg'.start, end := rg'.end) && rg'.start <= rg.start && rg.end <= rg'.end
  }

  // ---------------------------------------------------------------------
  // One extension step keeps the invariant

  lemma StepFrame(c: Cohort, results: seq<ResultData>, ranges: seq<Range>, r: nat, res: seq<ResultData>,
                  rg: Range, p: CallParams)
    requires Inv(c, results, ranges) && r < |ranges|
    requires Extended(c, results, ranges[r], res, rg, p)
    ensures Wf(c, res) && OnlyAbsorbed(c, results, res)
    ensures |res| > 0 ==> res[0] == results[0]
    ensures forall i :: 0 <= i < |res| ==> ChrOf(c, res, i) == ChrOf(c, results, i)
  {
    forall j | 0 <= j < |results|
      ensures res[j].sample == results[j].sample && res[j].exon == results[j].exon
      ensures || res[j] == results[j]
              || (results[j].copies == 2 && CopiesAt(c, results, j) != 2
                  && res[j] == results[j].(copies := CopiesAt(c, results, j)))
    {
    }
  }

  /** Results in another range keep their value: absorbed results had copy
      number 2, results in a range do not. */
  lemma StepOthers(c: Cohort, results: seq<ResultData>, ranges: seq<Range>, r: nat, res: seq<ResultData>,
                   rg: Range, p: CallParams, i: int)
    requires Inv(c, results, ranges) && r < |ranges|
    requires Extended(c, results, ranges[r], res, rg, p)
    requires Covers(ranges, i) && 0 <= i < |results|
    ensures res[i] == results[i]
  {
    var q :| 0 <= q < |ranges| && ranges[q].start <= i <= ranges[q].end;
    assert Fits(c, results, ranges[q], i);
  }

  lemma StepOrdered(c: Cohort, results: seq<ResultData>, ranges: seq<Range>, r: nat, res: seq<ResultData>,
                    rg: Range, p: CallParams)
    requires Inv(c, results, ranges) && r < |ranges|
    requires Extended(c, results, ranges[r], res, rg, p)
    ensures Ordered(ranges[r := rg])
  {
    var chr := ChrOf(c, results, ranges[r].start);
    if r > 0 {
      var j := ranges[r - 1].end;
      assert Fits(c, results, ranges[r - 1], j);
      assert !Absorbable(c, results, j, ranges[r], chr, p);
    }
    if r + 1 < |ranges| {
      var j := ranges[r + 1].start;
      assert Fits(c, results, ranges[r + 1], j);
      assert !Absorbable(c, results, j, ranges[r], chr, p);
    }
  }

  lemma StepUniform(c: Cohort, results: seq<ResultData>, ranges: seq<Range>, r: nat, res: seq<ResultData>,
                    rg: Range, p: CallParams)
    requires Inv(c, results, ranges) && r < |ranges|
    requires Extended(c, results, ranges[r], res, rg, p)
    ensures Wf(c, res) && RangesWf(res, ranges[r := rg])
    ensures Uniform(c, res, ranges[r := rg])
  {
    StepFrame(c, results, ranges, r, res, rg, p);
    var ranges' := ranges[r := rg];
    var chr := ChrOf(c, results, ranges[r].start);
    assert ChrOf(c, res, rg.start) == chr by {
      if rg.start != ranges[r].start {
        assert Absorbed(ranges[r], rg, rg.start);
      }
    }
    forall q, i | 0 <= q < |ranges'| && ranges'[q].start <= i <= ranges'[q].end
      ensures Fits(c, res, ranges'[q], i)
    {
      if q != r {
        assert Covers(ranges, i) && Covers(ranges, ranges[q].start);
        StepOthers(c, results, ranges, r, res, rg, p, i);
        StepOthers(c, results, ranges, r, res, rg, p, ranges[q].start);
        assert Fits(c, results, ranges[q], i);
      } else if Absorbed(ranges[r], rg, i) {
        assert Absorbable(c, results, i, ranges[r], chr, p);
      } else {
        assert Fits(c, results, ranges[r], i);
      }
    }
  }

  lemma StepCovered(c: Cohort, results: seq<ResultData>, ranges: seq<Range>, r: nat, res: seq<ResultData>,
                    rg: Range, p: CallParams)
    requires Inv(c, results, ranges) && r < |ranges|
    requires Extended(c, results, ranges[r], res, rg, p)
    ensures CoveredAll(res, ranges[r := rg])
  {
    var ranges' := ranges[r := rg];
    forall i | 0 <= i < |res| && res[i].copies != 2
      ensures Covers(ranges', i)
    {
      if Absorbed(ranges[r], rg, i) {
        assert ranges'[r].start <= i <= ranges'[r].end;
      } else {
        assert res[i] == results[i];
        var q :| 0 <= q < |ranges| && ranges[q].start <= i <= ranges[q].end;
        assert ranges'[q].start <= i <= ranges'[q].end;
      }
    }
  }

  /** A neighbour that could not join a range still cannot: it either kept
      its value or its copy number left 2. */
  lemma StepStuck(c: Cohort, results: seq<ResultData>, res: seq<ResultData>, rg: Range, p: CallParams)
    requires Wf(c, results) && Wf(c, res) && OnlyAbsorbed(c, results, res)
    requires forall i :: 0 <= i < |res| ==> ChrOf(c, res, i) == ChrOf(c, results, i)
    requires 0 <= rg.start < |results| && Stuck(c, results, rg, p)
    ensures Stuck(c, res, rg, p)
  {
  }

  /** One extension step keeps the invariant, leaves the extended range
      stuck and keeps the earlier ranges stuck. */
  lemma ExtendStep(c: Cohort, results: seq<ResultData>, ranges: seq<Range>, r: nat, res: seq<ResultData>,
                   rg: Range, p: CallParams)
    requires Inv(c, results, ranges) && r < |ranges|
    requires Extended(c, results, ranges[r], res, rg, p)
    ensures Inv(c, res, ranges[r := rg])
    ensures OnlyAbsorbed(c, results, res)
    ensures |res| > 0 ==> res[0] == results[0]
    ensures Stuck(c, res, rg, p)
    ensures forall q :: 0 <= q < |ranges| && Stuck(c, results, ranges[q], p) ==> Stuck(c, res, ranges[q], p)
  {
    StepInv(c, results, ranges, r, res, rg, p);
    StepKeepsStuck(c, results, ranges, r, res, rg, p);
  }

  /** The invariant part of one extension step. */
  lemma StepInv(c: Cohort, results: seq<ResultData>, ranges: seq<Range>, r: nat, res: seq<ResultData>,
                rg: Range, p: CallParams)
    requires Inv(c, results, ranges) && r < |ranges|
    requires Extended(c, results, ranges[r], res, rg, p)
    ensures Inv(c, res, ranges[r := rg])
    ensures OnlyAbsorbed(c, results, res)
    ensures |res| > 0 ==> res[0] == results[0]
  {
    StepFrame(c, results, ranges, r, res, rg, p);
    StepOrdered(c, results, ranges, r, res, rg, p);
    StepUniform(c, results, ranges, r, res, rg, p);
    StepCovered(c, results, ranges, r, res, rg, p);
  }

  /** The extended range is stuck, and so is every range that was stuck. */
  lemma StepKeepsStuck(c: Cohort, results: seq<ResultData>, ranges: seq<Range>, r: nat, res: seq<ResultData>,
                       rg: Range, p: CallParams)
    requires Inv(c, results, ranges) && r < |ranges|
    requires Extended(c, results, ranges[r], res, rg, p)
    ensures Wf(c, res) && 0 <= rg.start < |res|
    ensures Stuck(c, res, rg, p)
    ensures forall q :: 0 <= q < |ranges| && Stuck(c, results, ranges[q], p) ==> Stuck(c, res, ranges[q], p)
  {
    StepFrame(c, results, ranges, r, res, rg, p);
    var chr := ChrOf(c, results, ranges[r].start);
    assert ChrOf(c, res, rg.start) == chr by {
      if rg.start != ranges[r].start {
        assert Absorbed(ranges[r], rg, rg.start);
      }
    }
    assert !Absorbed(ranges[r], rg, rg.start - 1) && !Absorbed(ranges[r], rg, rg.end + 1);
    forall q | 0 <= q < |ranges| && Stuck(c, results, ranges[q], p)
      ensures Stuck(c, res, ranges[q], p)
    {
      StepStuck(c, results, res, ranges[q], p);
    }
  }

  /** OnlyAbsorbed composes: a result changed once has a copy number other
      than 2 and is not changed again. */
  lemma OnlyAbsorbedTrans(c: Cohort, r0: seq<ResultData>, r1: seq<ResultData>, r2: seq<ResultData>)
    requires Wf(c, r0) && Wf(c, r1)
    requires OnlyAbsorbed(c, r0, r1) && OnlyAbsorbed(c, r1, r2)
    ensures OnlyAbsorbed(c, r0, r2)
  {
    forall j | 0 <= j < |r0|
      ensures || r2[j] == r0[j]
              || (r0[j].copies == 2 && CopiesAt(c, r0, j) != 2 && r2[j] == r0[j].(copies := CopiesAt(c, r0, j)))
    {
      if r1[j] != r0[j] {
        assert r2[j] == r1[j];
      }
    }
  }

  /** The extension stage: every range in order. Afterwards the ranges are
      still disjoint and ordered, each range holds results of its sample and
      chromosome whose copy numbers match its type, every result whose copy
      number is not 2 lies in a range, only results of copy number 2 were
      absorbed (never result 0), and no range can grow further. */
  method ExtendAll(c: Cohort, results: seq<ResultData>, ranges: seq<Range>, p: CallParams)
    returns (results': seq<ResultData>, ranges': seq<Range>)
    requires Inv(c, results, ranges)
    ensures Inv(c, results', ranges')
    ensures |ranges'| == |ranges| && forall r :: 0 <= r < |ranges| ==> Grown(ranges[r], ranges'[r])
    ensures OnlyAbsorbed(c, results, results')
    ensures |results| > 0 ==> results'[0] == results[0]
    ensures forall r :: 0 <= r < |ranges'| ==> Stuck(c, results', ranges'[r], p)
  {
    results' := results;
    ranges' := ranges;
    forall j | 0 <= j < |results|
      ensures results[j] == results[j]
    {
    }
    for r := 0 to |ranges|
      invariant Inv(c, results', ranges')
      invariant |ranges'| == |ranges|
      invariant forall q :: 0 <= q < |ranges| ==> Grown(ranges[q], ranges'[q])
      invariant forall q :: r <= q < |ranges| ==> ranges'[q] == ranges[q]
      invariant OnlyAbsorbed(c, results, results')
      invariant |results| > 0 ==> results'[0] == results[0]
      invariant forall q :: 0 <= q < r ==> Stuck(c, results', ranges'[q], p)
    {
      var res, rg := ExtendRange(c, results', ranges'[r], p);
      ExtendStep(c, results', ranges', r, res, rg, p);
      OnlyAbsorbedTrans(c, results, results', res);
      results' := res;
      ranges' := ranges'[r := rg];
    }
  }

  // ---------------------------------------------------------------------
  // The seeds satisfy the invariant

  /** Every seed range is a single result of its own sample and type. */
  lemma SeedsUniform(c: Cohort, results: seq<ResultData>)
    requires Wf(c, results)
    ensures RangesWf(results, SeedRanges(results, |results|))
    ensures Uniform(c, results, SeedRanges(results, |results|))
  {
    var ranges := SeedRanges(results, |results|);
    SeedRangesShape(results, |results|);
    forall r, i | 0 <= r < |ranges| && ranges[r].start <= i <= ranges[r].end
      ensures Fits(c, results, ranges[r], i)
    {
      assert i == ranges[r].start;
    }
  }

  /** Every result whose copy number is not 2 is a seed range. */
  lemma SeedsCovered(results: seq<ResultData>)
    ensures CoveredAll(results, SeedRanges(results, |results|))
  {
    var ranges := SeedRanges(results, |results|);
    SeedRangesComplete(results, |results|);
    forall i | 0 <= i < |results| && results[i].copies != 2
      ensures Covers(ranges, i)
    {
      assert StartsAt(ranges, i);
      var j :| 0 <= j < |ranges| && ranges[j].start == i;
      SeedRangesShape(results, |results|);
    }
  }

  /** The seed ranges of the result layout satisfy the invariant. */
  lemma SeedsInv(c: Cohort, p: CallParams)
    requires Callable(c)
    ensures Inv(c, Results(c, p), SeedRanges(Results(c, p), |Results(c, p)|))
  {
    var results := Results(c, p);
    ResultsReferToCohort(c, p);
    SeedsUniform(c, results);
    SeedRangesOrdered(results, |results|);
    SeedsCovered(results);
  }
}

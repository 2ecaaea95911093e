/** Merging of extended ranges (main.cpp, "merge adjacent ranges" and "merge
    adjacent regions to bridge gaps with CN=2"). Both passes walk the range
    list from its second-to-last entry down to its first and join a range
    with the one that follows it, which may already be the product of joins
    made earlier in the same pass. The specification of a pass is therefore
    a right fold over the list. */
module Merging {
  import opened CnvData
  import opened Calling
  import opened Extension

  /** Both ends of every range index a result. */
  predicate Anchored(results: seq<ResultData>, rs: seq<Range>)
  {
    forall r :: 0 <= r < |rs| ==> 0 <= rs[r].start < |results| && 0 <= rs[r].end < |results|
  }

  /** `out` starts where `rs` starts, with the same sample and type. */
  predicate SameHead(out: seq<Range>, rs: seq<Range>)
    requires |out| > 0 && |rs| > 0
  {
    out[0].start == rs[0].start && out[0].sample == rs[0].sample && out[0].kind == rs[0].kind
  }

  /** first.end = second.end: `a` stretched to the end of `b`. */
  function Join(a: Range, b: Range): Range
  {
    a.(end := b.end)
  }

  /** Index i lies in range `rg`. */
  predicate In(rg: Range, i: int)
  {
    rg.start <= i <= rg.end
  }

  lemma CoversCons(rs: seq<Range>, i: int)
    requires |rs| > 0
    ensures Covers(rs, i) <==> In(rs[0], i) || Covers(rs[1..], i)
  {
    if Covers(rs, i) {
      var r :| 0 <= r < |rs| && rs[r].start <= i <= rs[r].end;
      if r > 0 {
        assert rs[1..][r - 1] == rs[r];
      }
    }
    if Covers(rs[1..], i) {
      var r :| 0 <= r < |rs[1..]| && rs[1..][r].start <= i <= rs[1..][r].end;
      assert rs[r + 1] == rs[1..][r];
    }
  }

  /** Any two ranges of an ordered list, not only neighbours, are disjoint
      and in order. */
  lemma {:induction false} OrderedPairwise(results: seq<ResultData>, rs: seq<Range>, q: int, q': int)
    requires RangesWf(results, rs) && Ordered(rs)
    requires 0 <= q < q' < |rs|
    ensures rs[q].end < rs[q'].start
    decreases q' - q
  {
    if q + 1 < q' {
      OrderedPairwise(results, rs, q, q' - 1);
    }
  }

  /** One step of a right-to-left pass: with the list already folded from
      position r + 1 on, joining or keeping range r yields the fold from r. */
  lemma FoldStep(ranges: seq<Range>, r: int, t: seq<Range>, out: seq<Range>, joined: bool, whole: seq<Range>)
    requires 0 <= r < |ranges| - 1 && |t| > 0
    requires out == ranges[..r + 1] + t
    requires whole == if joined then [Join(ranges[r], t[0])] + t[1..] else [ranges[r]] + t
    ensures out[r] == ranges[r] && out[r + 1] == t[0]
    ensures joined ==> out[..r] + [Join(out[r], out[r + 1])] + out[r + 2..] == ranges[..r] + whole
    ensures !joined ==> out == ranges[..r] + whole
  {
    assert out[..r] == ranges[..r] && out[r + 2..] == t[1..];
    assert ranges[..r + 1] == ranges[..r] + [ranges[r]];
  }

  // ---------------------------------------------------------------------
  // Pass 1: joining ranges that touch

  /** Two ranges can be merged: same type, `b` starts right after `a` ends,
      same sample and same chromosome. */
  predicate Mergeable(c: Cohort, results: seq<ResultData>, a: Range, b: Range)
    requires Wf(c, results) && 0 <= a.start < |results| && 0 <= b.start < |results|
  {
    && a.kind == b.kind
    && a.end == b.start - 1
    && a.sample == b.sample
    && ChrOf(c, results, a.start) == ChrOf(c, results, b.start)
  }

  /** The list after the merge pass. */
  function MergeAll(c: Cohort, results: seq<ResultData>, rs: seq<Range>): (out: seq<Range>)
    requires Wf(c, results) && Anchored(results, rs)
    ensures |out| <= |rs| && Anchored(results, out)
    ensures |rs| > 0 ==> |out| > 0 && SameHead(out, rs)
    decreases |rs|
  {
    if |rs| <= 1 then rs
    else
      var t := MergeAll(c, results, rs[1..]);
      if Mergeable(c, results, rs[0], t[0]) then [Join(rs[0], t[0])] + t[1..]
      else [rs[0]] + t
  }

  /** One step of the merge pass: ranges[r] is joined with the range that
      now follows it when they are mergeable. */
  method MergeStep(c: Cohort, results: seq<ResultData>, ranges: seq<Range>, r: int, out: seq<Range>)
    returns (out': seq<Range>)
    requires Wf(c, results) && Anchored(results, ranges) && 0 <= r <= |ranges| - 2
    requires out == ranges[..r + 1] + MergeAll(c, results, ranges[r + 1..])
    ensures out' == ranges[..r] + MergeAll(c, results, ranges[r..])
  {
    ghost var t := MergeAll(c, results, ranges[r + 1..]);
    assert ranges[r..][0] == ranges[r] && ranges[r..][1..] == ranges[r + 1..];
    FoldStep(ranges, r, t, out, Mergeable(c, results, ranges[r], t[0]), MergeAll(c, results, ranges[r..]));
    out' := out;
    var first := out[r];
    var second := out[r + 1];
    if first.kind == second.kind && first.end == second.start - 1 && first.sample == second.sample
       && c.exons[results[first.start].exon].chr == c.exons[results[second.start].exon].chr
    {
      out' := out[..r] + [Join(first, second)] + out[r + 2..];
    }
  }

  /** The state before and after the right-to-left loop of the merge pass. */
  lemma MergeEnds(c: Cohort, results: seq<ResultData>, ranges: seq<Range>)
    requires Wf(c, results) && Anchored(results, ranges) && |ranges| > 0
    ensures ranges == ranges[..|ranges| - 1] + MergeAll(c, results, ranges[|ranges| - 1..])
    ensures ranges[..0] + MergeAll(c, results, ranges[0..]) == MergeAll(c, results, ranges)
  {
    assert ranges[|ranges| - 1..] == [ranges[|ranges| - 1]];
    assert ranges[0..] == ranges;
  }

  /** The merge pass as the program runs it: r from the second-to-last
      range down to 0, joining ranges[r] and ranges[r + 1] in place. */
  method MergeAdjacent(c: Cohort, results: seq<ResultData>, ranges: seq<Range>) returns (out: seq<Range>)
    requires Wf(c, results) && Anchored(results, ranges)
    ensures out == MergeAll(c, results, ranges)
  {
    out := ranges;
    if |ranges| == 0 {
      return;
    }
    var r := |ranges| - 2;
    MergeEnds(c, results, ranges);
    while r >= 0
      invariant -1 <= r <= |ranges| - 2
      invariant out == ranges[..r + 1] + MergeAll(c, results, ranges[r + 1..])
    {
      out := MergeStep(c, results, ranges, r, out);
      r := r - 1;
    }
  }

  /** Merging keeps the ranges well formed and ordered. */
  lemma {:induction false} MergeAllOrdered(c: Cohort, results: seq<ResultData>, rs: seq<Range>)
    requires Wf(c, results) && RangesWf(results, rs) && Ordered(rs)
    ensures RangesWf(results, MergeAll(c, results, rs)) && Ordered(MergeAll(c, results, rs))
    decreases |rs|
  {
    if |rs| > 1 {
      MergeAllOrdered(c, results, rs[1..]);
    }
  }

  /** Merging covers exactly the results the ranges covered. */
  lemma {:induction false} MergeAllCoversAt(c: Cohort, results: seq<ResultData>, rs: seq<Range>, i: int)
    requires Wf(c, results) && RangesWf(results, rs) && Ordered(rs)
    ensures Covers(MergeAll(c, results, rs), i) <==> Covers(rs, i)
    decreases |rs|
  {
    if |rs| > 1 {
      var t := MergeAll(c, results, rs[1..]);
      MergeAllOrdered(c, results, rs[1..]);
      MergeAllCoversAt(c, results, rs[1..], i);
      var out := MergeAll(c, results, rs);
      CoversCons(rs, i);
      CoversCons(out, i);
      CoversCons(t, i);
      if Mergeable(c, results, rs[0], t[0]) {
        assert out[1..] == t[1..];
      } else {
        assert out[1..] == t;
      }
    }
  }

  lemma MergeAllCovers(c: Cohort, results: seq<ResultData>, rs: seq<Range>)
    requires Wf(c, results) && RangesWf(results, rs) && Ordered(rs)
    ensures RangesWf(results, MergeAll(c, results, rs)) && Ordered(MergeAll(c, results, rs))
    ensures forall i :: Covers(MergeAll(c, results, rs), i) <==> Covers(rs, i)
  {
    MergeAllOrdered(c, results, rs);
    forall i
      ensures Covers(MergeAll(c, results, rs), i) <==> Covers(rs, i)
    {
      MergeAllCoversAt(c, results, rs, i);
    }
  }

  /** The ranges of a merged list still fit their results. */
  lemma {:induction false} MergeAllUniform(c: Cohort, results: seq<ResultData>, rs: seq<Range>)
    requires Wf(c, results) && RangesWf(results, rs) && Ordered(rs) && Uniform(c, results, rs)
    ensures RangesWf(results, MergeAll(c, results, rs)) && Uniform(c, results, MergeAll(c, results, rs))
    decreases |rs|
  {
    MergeAllOrdered(c, results, rs);
    var out := MergeAll(c, results, rs);
    if |rs| > 1 {
      var t := MergeAll(c, results, rs[1..]);
      MergeAllUniform(c, results, rs[1..]);
      forall q, i | 0 <= q < |out| && out[q].start <= i <= out[q].end
        ensures Fits(c, results, out[q], i)
      {
        if Mergeable(c, results, rs[0], t[0]) {
          if q == 0 {
            if i <= rs[0].end {
              assert Fits(c, results, rs[0], i);
            } else {
              assert Fits(c, results, t[0], i);
            }
          } else {
            assert out[q] == t[q];
          }
        } else if q > 0 {
          assert out[q] == t[q - 1];
        }
      }
    }
  }

  /** Merging keeps the invariant of the range list. */
  lemma MergeAllInv(c: Cohort, results: seq<ResultData>, rs: seq<Range>)
    requires Inv(c, results, rs)
    ensures Inv(c, results, MergeAll(c, results, rs))
  {
    MergeAllCovers(c, results, rs);
    MergeAllUniform(c, results, rs);
  }

  /** No two neighbouring ranges of a merged list can be merged. */
  predicate NoMergeable(c: Cohort, results: seq<ResultData>, rs: seq<Range>)
    requires Wf(c, results) && Anchored(results, rs)
  {
    forall r :: 0 <= r < |rs| - 1 ==> !Mergeable(c, results, rs[r], rs[r + 1])
  }

  lemma {:induction false} MergeAllMaximal(c: Cohort, results: seq<ResultData>, rs: seq<Range>)
    requires Wf(c, results) && Anchored(results, rs)
    ensures NoMergeable(c, results, MergeAll(c, results, rs))
    decreases |rs|
  {
    if |rs| > 1 {
      var t := MergeAll(c, results, rs[1..]);
      MergeAllMaximal(c, results, rs[1..]);
      var out := MergeAll(c, results, rs);
      if Mergeable(c, results, rs[0], t[0]) && |t| > 1 {
        assert !Mergeable(c, results, t[0], t[1]);
        assert out[1] == t[1];
      }
      forall r | 1 <= r < |out| - 1
        ensures !Mergeable(c, results, out[r], out[r + 1])
      {
        if Mergeable(c, results, rs[0], t[0]) {
          assert out[r] == t[r] && out[r + 1] == t[r + 1];
        } else {
          assert out[r] == t[r - 1] && out[r + 1] == t[r];
        }
      }
    }
  }

  /** A list without mergeable neighbours is left as it is. */
  lemma {:induction false} MergeAllFixed(c: Cohort, results: seq<ResultData>, rs: seq<Range>)
    requires Wf(c, results) && Anchored(results, rs) && NoMergeable(c, results, rs)
    ensures MergeAll(c, results, rs) == rs
    decreases |rs|
  {
    if |rs| > 1 {
      assert NoMergeable(c, results, rs[1..]) by {
        forall r | 0 <= r < |rs[1..]| - 1
          ensures !Mergeable(c, results, rs[1..][r], rs[1..][r + 1])
        {
          assert rs[1..][r] == rs[r + 1] && rs[1..][r + 1] == rs[r + 2];
        }
      }
      MergeAllFixed(c, results, rs[1..]);
      assert !Mergeable(c, results, rs[0], rs[1]);
      assert [rs[0]] + rs[1..] == rs;
    }
  }

  /** Merging twice merges nothing more. */
  lemma MergeAllIdempotent(c: Cohort, results: seq<ResultData>, rs: seq<Range>)
    requires Wf(c, results) && Anchored(results, rs)
    ensures MergeAll(c, results, MergeAll(c, results, rs)) == MergeAll(c, results, rs)
  {
    MergeAllMaximal(c, results, rs);
    MergeAllFixed(c, results, MergeAll(c, results, rs));
  }

  /** Joining two stuck ranges of the same sample, type and chromosome
      gives a stuck range. */
  lemma StuckJoin(c: Cohort, results: seq<ResultData>, a: Range, b: Range, p: CallParams)
    requires Wf(c, results) && 0 <= a.start < |results| && 0 <= b.start < |results|
    requires Stuck(c, results, a, p) && Stuck(c, results, b, p)
    requires a.sample == b.sample && a.kind == b.kind && ChrOf(c, results, a.start) == ChrOf(c, results, b.start)
    ensures Stuck(c, results, Join(a, b), p)
  {
  }

  /** A range of a merged list still cannot grow: its left neighbour is the
      left neighbour of its first part and its right neighbour that of its
      last part. */
  lemma {:induction false} MergeAllStuck(c: Cohort, results: seq<ResultData>, rs: seq<Range>, p: CallParams)
    requires Wf(c, results) && Anchored(results, rs)
    requires forall r :: 0 <= r < |rs| ==> Stuck(c, results, rs[r], p)
    ensures forall r :: 0 <= r < |MergeAll(c, results, rs)| ==> Stuck(c, results, MergeAll(c, results, rs)[r], p)
    decreases |rs|
  {
    if |rs| > 1 {
      var t := MergeAll(c, results, rs[1..]);
      MergeAllStuck(c, results, rs[1..], p);
      if Mergeable(c, results, rs[0], t[0]) {
        StuckJoin(c, results, rs[0], t[0], p);
        StuckCons(c, results, Join(rs[0], t[0]), t[1..], p);
      } else {
        StuckCons(c, results, rs[0], t, p);
      }
    }
  }

  /** A stuck range in front of a list of stuck ranges. */
  lemma StuckCons(c: Cohort, results: seq<ResultData>, a: Range, t: seq<Range>, p: CallParams)
    requires Wf(c, results) && 0 <= a.start < |results| && 0 <= a.end < |results| && Anchored(results, t)
    requires Stuck(c, results, a, p)
    requires forall r :: 0 <= r < |t| ==> Stuck(c, results, t[r], p)
    ensures Anchored(results, [a] + t)
    ensures forall r :: 0 <= r < |[a] + t| ==> Stuck(c, results, ([a] + t)[r], p)
  {
    var out := [a] + t;
    assert forall r :: 0 < r < |out| ==> out[r] == t[r - 1];
    forall r | 0 <= r < |out|
      ensures Stuck(c, results, out[r], p)
    {
      if r > 0 {
        assert out[r] == t[r - 1];
      }
    }
  }

  // ---------------------------------------------------------------------
  // Pass 2: bridging short gaps of copy number 2

  /** No result strictly between the two ranges has a z-score of the wrong
      trend: below 0 for a duplication, above 0 for a deletion (NaN passes). */
  predicate GapOk(results: seq<ResultData>, lo: int, hi: int, kind: CnvType)
    requires 0 <= lo && hi <= |results|
  {
    forall i :: lo <= i < hi ==>
      if kind == Ins then !results[i].z.Below(0.0) else !results[i].z.Above(0.0)
  }

  /** The gap is at most ext_gap_span percent of the two ranges' sizes. */
  predicate WithinSpan(a: Range, b: Range, span: real)
  {
    ((b.start - a.end - 1) as real) <= span / 100.0 * ((Size(a) + Size(b)) as real)
  }

  /** Two ranges can be bridged: same type, sample and chromosome, a short
      enough gap, and no result of the wrong trend inside it. */
  predicate Bridgeable(c: Cohort, results: seq<ResultData>, a: Range, b: Range, p: CallParams)
    requires Wf(c, results) && 0 <= a.start < |results| && 0 <= a.end < |results| && 0 <= b.start < |results|
  {
    && a.kind == b.kind
    && a.sample == b.sample
    && ChrOf(c, results, a.start) == ChrOf(c, results, b.start)
    && WithinSpan(a, b, p.extGapSpan)
    && GapOk(results, a.end + 1, b.start, a.kind)
  }

  /** The range list after one bridging pass. */
  function BridgeAll(c: Cohort, results: seq<ResultData>, rs: seq<Range>, p: CallParams): (out: seq<Range>)
    requires Wf(c, results) && Anchored(results, rs)
    ensures |out| <= |rs| && Anchored(results, out)
    ensures |rs| > 0 ==> |out| > 0 && SameHead(out, rs)
    decreases |rs|
  {
    if |rs| <= 1 then rs
    else
      var t := BridgeAll(c, results, rs[1..], p);
      if Bridgeable(c, results, rs[0], t[0], p) then [Join(rs[0], t[0])] + t[1..]
      else [rs[0]] + t
  }

  predicate NoBridgeable(c: Cohort, results: seq<ResultData>, rs: seq<Range>, p: CallParams)
    requires Wf(c, results) && Anchored(results, rs)
  {
    forall r :: 0 <= r < |rs| - 1 ==> !Bridgeable(c, results, rs[r], rs[r + 1], p)
  }

  /** A pass that joins nothing leaves the list as it is, and then no two
      neighbours can be bridged: this is what ends the repetition. */
  lemma {:induction false} BridgeAllSame(c: Cohort, results: seq<ResultData>, rs: seq<Range>, p: CallParams)
    requires Wf(c, results) && Anchored(results, rs)
    requires |BridgeAll(c, results, rs, p)| == |rs|
    ensures BridgeAll(c, results, rs, p) == rs && NoBridgeable(c, results, rs, p)
    decreases |rs|
  {
    if |rs| > 1 {
      var t := BridgeAll(c, results, rs[1..], p);
      BridgeAllSame(c, results, rs[1..], p);
      assert [rs[0]] + rs[1..] == rs;
      forall r | 1 <= r < |rs| - 1
        ensures !Bridgeable(c, results, rs[r], rs[r + 1], p)
      {
        assert rs[r] == rs[1..][r - 1] && rs[r + 1] == rs[1..][r];
      }
    }
  }

  /** Bridging keeps the ranges well formed and ordered. */
  lemma {:induction false} BridgeAllOrdered(c: Cohort, results: seq<ResultData>, rs: seq<Range>, p: CallParams)
    requires Wf(c, results) && RangesWf(results, rs) && Ordered(rs)
    ensures RangesWf(results, BridgeAll(c, results, rs, p)) && Ordered(BridgeAll(c, results, rs, p))
    decreases |rs|
  {
    if |rs| > 1 {
      BridgeAllOrdered(c, results, rs[1..], p);
    }
  }

  /** A result some range covered is still covered after bridging. */
  lemma {:induction false} BridgeAllCoversAt(c: Cohort, results: seq<ResultData>, rs: seq<Range>, p: CallParams, i: int)
    requires Wf(c, results) && RangesWf(results, rs) && Ordered(rs) && Covers(rs, i)
    ensures Covers(BridgeAll(c, results, rs, p), i)
    decreases |rs|
  {
    if |rs| > 1 {
      var t := BridgeAll(c, results, rs[1..], p);
      var out := BridgeAll(c, results, rs, p);
      CoversCons(rs, i);
      CoversCons(out, i);
      if In(rs[0], i) {
        BridgeAllOrdered(c, results, rs[1..], p);
        assert In(out[0], i);
      } else {
        BridgeAllCoversAt(c, results, rs[1..], p, i);
        CoversCons(t, i);
        if Bridgeable(c, results, rs[0], t[0], p) {
          assert out[1..] == t[1..];
        } else {
          assert out[1..] == t;
        }
      }
    }
  }

  lemma BridgeAllCovers(c: Cohort, results: seq<ResultData>, rs: seq<Range>, p: CallParams)
    requires Wf(c, results) && RangesWf(results, rs) && Ordered(rs)
    ensures RangesWf(results, BridgeAll(c, results, rs, p)) && Ordered(BridgeAll(c, results, rs, p))
    ensures forall i :: Covers(rs, i) ==> Covers(BridgeAll(c, results, rs, p), i)
  {
    BridgeAllOrdered(c, results, rs, p);
    forall i | Covers(rs, i)
      ensures Covers(BridgeAll(c, results, rs, p), i)
    {
      BridgeAllCoversAt(c, results, rs, p, i);
    }
  }

  /** The copy numbers after bridging: recomputed exactly for the results
      that a range now covers and no range covered before. */
  predicate Recomputed(c: Cohort, results: seq<ResultData>, before: seq<Range>, after: seq<Range>,
                       results': seq<ResultData>)
    requires Wf(c, results)
  {
    && |results'| == |results|
    && forall i :: 0 <= i < |results| ==>
         results'[i] == if Covers(after, i) && !Covers(before, i) then results[i].(copies := CopiesAt(c, results, i))
                        else results[i]
  }

  /** The trend check over the gap, as a loop that stops at the first
      result of the wrong trend. */
  method GapTrend(results: seq<ResultData>, lo: int, hi: int, kind: CnvType) returns (ok: bool)
    requires 0 <= lo && hi <= |results|
    ensures ok == GapOk(results, lo, hi, kind)
  {
    var i := lo;
    while i < hi
      invariant lo <= i && (i <= hi || i == lo)
      invariant forall j :: lo <= j < i ==>
                  if kind == Ins then !results[j].z.Below(0.0) else !results[j].z.Above(0.0)
      decreases hi - i
    {
      if kind == Ins && results[i].z.Below(0.0) {
        return false;
      }
      if kind == Del && results[i].z.Above(0.0) {
        return false;
      }
      i := i + 1;
    }
    return true;
  }

  /** Recomputes the copy numbers of results lo .. hi - 1. */
  method RecomputeGap(c: Cohort, results: seq<ResultData>, lo: int, hi: int) returns (results': seq<ResultData>)
    requires Wf(c, results) && 0 <= lo && hi <= |results|
    ensures |results'| == |results|
    ensures forall i :: 0 <= i < |results| ==>
              results'[i] == if lo <= i < hi then results[i].(copies := CopiesAt(c, results, i)) else results[i]
  {
    results' := results;
    var i := lo;
    while i < hi
      invariant lo <= i && (i <= hi || i == lo) && |results'| == |results|
      invariant forall j :: 0 <= j < |results| ==>
                  results'[j] == if lo <= j < i then results[j].(copies := CopiesAt(c, results, j)) else results[j]
      decreases hi - i
    {
      results' := results'[i := results'[i].(copies := CalculateCopies(c.samples[results'[i].sample], c.exons[results'[i].exon]))];
      i := i + 1;
    }
  }

  /** Where the entries of a list with ranges r and r + 1 joined come from. */
  lemma SpliceIndex(rs: seq<Range>, r: int, out: seq<Range>)
    requires 0 <= r < |rs| - 1
    requires out == rs[..r] + [Join(rs[r], rs[r + 1])] + rs[r + 2..]
    ensures |out| == |rs| - 1 && out[r] == Join(rs[r], rs[r + 1])
    ensures forall q :: 0 <= q < r ==> out[q] == rs[q]
    ensures forall q :: r < q < |out| ==> out[q] == rs[q + 1]
  {
  }

  /** Joining ranges r and r + 1 of an ordered list keeps it ordered. */
  lemma SpliceOrdered(results: seq<ResultData>, rs: seq<Range>, r: int, out: seq<Range>)
    requires RangesWf(results, rs) && Ordered(rs) && 0 <= r < |rs| - 1
    requires out == rs[..r] + [Join(rs[r], rs[r + 1])] + rs[r + 2..]
    ensures RangesWf(results, out) && Ordered(out)
  {
    SpliceIndex(rs, r, out);
    forall q | 0 <= q < |out| - 1
      ensures out[q].end < out[q + 1].start
    {
      if q == r - 1 {
        assert out[q] == rs[r - 1];
      } else if q > r {
        assert out[q] == rs[q + 1] && out[q + 1] == rs[q + 2];
      }
    }
  }

  /** The gap between ranges r and r + 1 of an ordered list is not covered. */
  lemma GapUncovered(results: seq<ResultData>, rs: seq<Range>, r: int, i: int)
    requires RangesWf(results, rs) && Ordered(rs) && 0 <= r < |rs| - 1
    requires rs[r].end < i < rs[r + 1].start
    ensures !Covers(rs, i)
  {
    if Covers(rs, i) {
      var q :| 0 <= q < |rs| && rs[q].start <= i <= rs[q].end;
      if q < r {
        OrderedPairwise(results, rs, q, r);
      } else if q > r + 1 {
        OrderedPairwise(results, rs, r + 1, q);
      }
    }
  }

  /** What the joined list covers was covered before or lies in the gap. */
  lemma SpliceCoversOut(results: seq<ResultData>, rs: seq<Range>, r: int, out: seq<Range>, i: int)
    requires RangesWf(results, rs) && Ordered(rs) && 0 <= r < |rs| - 1
    requires out == rs[..r] + [Join(rs[r], rs[r + 1])] + rs[r + 2..]
    requires Covers(out, i)
    ensures Covers(rs, i) || rs[r].end < i < rs[r + 1].start
  {
    SpliceIndex(rs, r, out);
    var q :| 0 <= q < |out| && out[q].start <= i <= out[q].end;
    if q < r {
      assert In(rs[q], i);
    } else if q > r {
      assert In(rs[q + 1], i);
    } else if i <= rs[r].end {
      assert In(rs[r], i);
    } else if i >= rs[r + 1].start {
      assert In(rs[r + 1], i);
    }
  }

  /** The joined list covers what was covered before and the gap. */
  lemma SpliceCoversIn(results: seq<ResultData>, rs: seq<Range>, r: int, out: seq<Range>, i: int)
    requires RangesWf(results, rs) && Ordered(rs) && 0 <= r < |rs| - 1
    requires out == rs[..r] + [Join(rs[r], rs[r + 1])] + rs[r + 2..]
    requires Covers(rs, i) || rs[r].end < i < rs[r + 1].start
    ensures Covers(out, i)
  {
    SpliceIndex(rs, r, out);
    if Covers(rs, i) {
      var q :| 0 <= q < |rs| && rs[q].start <= i <= rs[q].end;
      if q < r {
        assert In(out[q], i);
      } else if q > r + 1 {
        assert In(out[q - 1], i);
      } else {
        assert In(out[r], i);
      }
    } else {
      assert In(out[r], i);
    }
  }

  /** One step of the bridging pass keeps the recomputation exact. */
  lemma BridgeStepRecomputed(c: Cohort, results: seq<ResultData>, ranges: seq<Range>, cur: seq<Range>,
                             results': seq<ResultData>, r: int, next: seq<Range>, results'': seq<ResultData>)
    requires Wf(c, results) && RangesWf(results, cur) && Ordered(cur) && 0 <= r < |cur| - 1
    requires forall i :: Covers(ranges, i) ==> Covers(cur, i)
    requires Recomputed(c, results, ranges, cur, results')
    requires next == cur[..r] + [Join(cur[r], cur[r + 1])] + cur[r + 2..]
    requires |results''| == |results'|
    requires forall i :: 0 <= i < |results'| ==>
               results''[i] == if cur[r].end + 1 <= i < cur[r + 1].start
                               then results'[i].(copies := CalculateCopies(c.samples[results'[i].sample], c.exons[results'[i].exon]))
                               else results'[i]
    ensures RangesWf(results, next) && Ordered(next)
    ensures forall i :: Covers(ranges, i) ==> Covers(next, i)
    ensures Recomputed(c, results, ranges, next, results'')
  {
    SpliceOrdered(results, cur, r, next);
    forall i
      ensures Covers(next, i) <==> Covers(cur, i) || cur[r].end < i < cur[r + 1].start
    {
      if Covers(next, i) {
        SpliceCoversOut(results, cur, r, next, i);
      }
      if Covers(cur, i) || cur[r].end < i < cur[r + 1].start {
        SpliceCoversIn(results, cur, r, next, i);
      }
    }
    forall i | cur[r].end < i < cur[r + 1].start
      ensures !Covers(cur, i)
    {
      GapUncovered(results, cur, r, i);
    }
  }

  /** The bridging test as the pass makes it, condition by condition, the
      trend check last. */
  method BridgeTest(c: Cohort, results: seq<ResultData>, first: Range, second: Range, p: CallParams)
    returns (bridge: bool)
    requires Wf(c, results) && 0 <= first.start < |results| && 0 <= first.end < |results|
    requires 0 <= second.start < |results|
    ensures bridge == Bridgeable(c, results, first, second, p)
  {
    bridge := false;
    if first.kind == second.kind && first.sample == second.sample
       && c.exons[results[first.start].exon].chr == c.exons[results[second.start].exon].chr
       && WithinSpan(first, second, p.extGapSpan)
    {
      bridge := GapTrend(results, first.end + 1, second.start, first.kind);
    }
  }

  /** The state of a bridging pass once the ranges from position k on have
      been folded. */
  ghost predicate PassState(c: Cohort, results: seq<ResultData>, ranges: seq<Range>, p: CallParams, k: int,
                      out: seq<Range>, results': seq<ResultData>)
    requires Wf(c, results) && RangesWf(results, ranges) && 0 <= k <= |ranges|
  {
    && out == ranges[..k] + BridgeAll(c, results, ranges[k..], p)
    && RangesWf(results, out) && Ordered(out)
    && (forall i :: Covers(ranges, i) ==> Covers(out, i))
    && Recomputed(c, results, ranges, out, results')
  }

  /** The state before the loop of a bridging pass. */
  lemma BridgeStart(c: Cohort, results: seq<ResultData>, ranges: seq<Range>, p: CallParams)
    requires Wf(c, results) && RangesWf(results, ranges) && Ordered(ranges) && |ranges| > 0
    ensures PassState(c, results, ranges, p, |ranges| - 1, ranges, results)
  {
    assert ranges[|ranges| - 1..] == [ranges[|ranges| - 1]];
    assert ranges[..|ranges| - 1] + [ranges[|ranges| - 1]] == ranges;
  }

  /** The state after the loop of a bridging pass. */
  lemma BridgeEnd(c: Cohort, results: seq<ResultData>, ranges: seq<Range>, p: CallParams, out: seq<Range>,
                  results': seq<ResultData>)
    requires Wf(c, results) && RangesWf(results, ranges)
    requires PassState(c, results, ranges, p, 0, out, results')
    ensures out == BridgeAll(c, results, ranges, p)
    ensures Recomputed(c, results, ranges, out, results')
  {
    assert ranges[0..] == ranges;
  }

  /** What the loop of a bridging pass can rely on at step r: the two ranges
      it compares index the results, and the results refer to the cohort. */
  lemma BridgeStepFacts(c: Cohort, results: seq<ResultData>, ranges: seq<Range>, p: CallParams, r: int,
                        out: seq<Range>, results': seq<ResultData>)
    requires Wf(c, results) && RangesWf(results, ranges) && 0 <= r <= |ranges| - 2
    requires PassState(c, results, ranges, p, r + 1, out, results')
    ensures r + 1 < |out| && Wf(c, results') && |results'| == |results|
    ensures 0 <= out[r].start <= out[r].end < |results| && 0 <= out[r + 1].start < |results|
    ensures out[r].end < out[r + 1].start
  {
    forall i | 0 <= i < |results'|
      ensures results'[i].sample == results[i].sample && results'[i].exon == results[i].exon
    {
    }
  }

  /** Step r of a bridging pass when ranges[r] and the range after it are
      not bridgeable: the list stays as it is. */
  lemma BridgeKept(c: Cohort, results: seq<ResultData>, ranges: seq<Range>, p: CallParams, r: int,
                   out: seq<Range>, results': seq<ResultData>)
    requires Wf(c, results) && RangesWf(results, ranges) && 0 <= r <= |ranges| - 2
    requires PassState(c, results, ranges, p, r + 1, out, results')
    requires r + 1 < |out| && 0 <= out[r].start < |results| && 0 <= out[r + 1].start < |results|
    requires !Bridgeable(c, results, out[r], out[r + 1], p)
    ensures PassState(c, results, ranges, p, r, out, results')
  {
    var t := BridgeAll(c, results, ranges[r + 1..], p);
    assert ranges[r..][0] == ranges[r] && ranges[r..][1..] == ranges[r + 1..];
    FoldStep(ranges, r, t, out, false, BridgeAll(c, results, ranges[r..], p));
  }

  /** Step r of a bridging pass when the two ranges are bridgeable: they are
      joined and the gap's copy numbers recomputed. */
  lemma BridgeJoined(c: Cohort, results: seq<ResultData>, ranges: seq<Range>, p: CallParams, r: int,
                     out: seq<Range>, results': seq<ResultData>, next: seq<Range>, res: seq<ResultData>)
    requires Wf(c, results) && RangesWf(results, ranges) && 0 <= r <= |ranges| - 2
    requires PassState(c, results, ranges, p, r + 1, out, results')
    requires r + 1 < |out| && 0 <= out[r].start < |results| && 0 <= out[r + 1].start < |results|
    requires Wf(c, results') && Bridgeable(c, results, out[r], out[r + 1], p)
    requires next == out[..r] + [Join(out[r], out[r + 1])] + out[r + 2..]
    requires |res| == |results'|
    requires forall i :: 0 <= i < |results'| ==>
               res[i] == if out[r].end + 1 <= i < out[r + 1].start
                         then results'[i].(copies := CopiesAt(c, results', i)) else results'[i]
    ensures PassState(c, results, ranges, p, r, next, res)
  {
    var t := BridgeAll(c, results, ranges[r + 1..], p);
    assert ranges[r..][0] == ranges[r] && ranges[r..][1..] == ranges[r + 1..];
    FoldStep(ranges, r, t, out, true, BridgeAll(c, results, ranges[r..], p));
    BridgeStepRecomputed(c, results, ranges, out, results', r, next, res);
  }

  /** One step of the bridging pass: ranges[r] is joined with the range
      that now follows it, and the gap's copy numbers recomputed, when they
      are bridgeable. */
  method BridgeStep(c: Cohort, results: seq<ResultData>, ranges: seq<Range>, p: CallParams, r: int,
                    out: seq<Range>, results': seq<ResultData>)
    returns (out': seq<Range>, results'': seq<ResultData>)
    requires Wf(c, results) && RangesWf(results, ranges) && Ordered(ranges) && 0 <= r <= |ranges| - 2
    requires PassState(c, results, ranges, p, r + 1, out, results')
    ensures PassState(c, results, ranges, p, r, out', results'')
  {
    BridgeStepFacts(c, results, ranges, p, r, out, results');
    var first := out[r];
    var second := out[r + 1];
    var bridge := BridgeTest(c, results, first, second, p);
    if bridge {
      var res := RecomputeGap(c, results', first.end + 1, second.start);
      var next := out[..r] + [Join(first, second)] + out[r + 2..];
      BridgeJoined(c, results, ranges, p, r, out, results', next, res);
      out', results'' := next, res;
    } else {
      BridgeKept(c, results, ranges, p, r, out, results');
      out', results'' := out, results';
    }
  }

  /** One bridging pass as the program runs it, from the second-to-last
      range down to the first; z-scores and regions are read from the pass's
      input, which the pass changes only in copy numbers. */
  method BridgePass(c: Cohort, results: seq<ResultData>, ranges: seq<Range>, p: CallParams)
    returns (results': seq<ResultData>, out: seq<Range>)
    requires Wf(c, results) && RangesWf(results, ranges) && Ordered(ranges)
    ensures out == BridgeAll(c, results, ranges, p)
    ensures Recomputed(c, results, ranges, out, results')
  {
    results' := results;
    out := ranges;
    if |ranges| == 0 {
      return;
    }
    var r := |ranges| - 2;
    BridgeStart(c, results, ranges, p);
    while r >= 0
      invariant -1 <= r <= |ranges| - 2
      invariant PassState(c, results, ranges, p, r + 1, out, results')
    {
      out, results' := BridgeStep(c, results, ranges, p, r, out, results');
      r := r - 1;
    }
    BridgeEnd(c, results, ranges, p, out, results');
  }

  /** Recomputation composes over successive passes. */
  lemma RecomputedTrans(c: Cohort, results: seq<ResultData>, r0: seq<Range>, r1: seq<Range>, r2: seq<Range>,
                        results1: seq<ResultData>, results2: seq<ResultData>)
    requires Wf(c, results) && Recomputed(c, results, r0, r1, results1)
    requires forall i :: Covers(r0, i) ==> Covers(r1, i)
    requires forall i :: Covers(r1, i) ==> Covers(r2, i)
    requires Wf(c, results1) && Recomputed(c, results1, r1, r2, results2)
    ensures Recomputed(c, results, r0, r2, results2)
  {
    forall i | 0 <= i < |results1|
      ensures results1[i].sample == results[i].sample && results1[i].exon == results[i].exon
    {
    }
  }

  /** The gap-bridging stage: when ext_gap_span is positive, bridging
      passes repeat until one leaves the number of ranges unchanged. */
  method BridgeGaps(c: Cohort, results: seq<ResultData>, ranges: seq<Range>, p: CallParams)
    returns (results': seq<ResultData>, out: seq<Range>)
    requires Wf(c, results) && RangesWf(results, ranges) && Ordered(ranges)
    ensures p.extGapSpan <= 0.0 ==> results' == results && out == ranges
    ensures Wf(c, results') && RangesWf(results', out) && Ordered(out) && |out| <= |ranges|
    ensures forall i :: Covers(ranges, i) ==> Covers(out, i)
    ensures Recomputed(c, results, ranges, out, results')
    ensures p.extGapSpan > 0.0 ==> NoBridgeable(c, results', out, p)
  {
    results' := results;
    out := ranges;
    if p.extGapSpan > 0.0 {
      var before := 0;
      var after := 1;
      while before != after
        invariant Wf(c, results') && RangesWf(results', out) && Ordered(out) && |out| <= |ranges|
        invariant forall i :: Covers(ranges, i) ==> Covers(out, i)
        invariant Recomputed(c, results, ranges, out, results')
        invariant before == after ==> NoBridgeable(c, results', out, p)
        decreases |out| + (if before != after then 1 else 0)
      {
        before := |out|;
        var res, next := BridgePass(c, results', out, p);
        BridgeAllCovers(c, results', out, p);
        RecomputedTrans(c, results, ranges, out, next, results', res);
        if |next| == |out| {
          BridgeAllSame(c, results', out, p);
          assert res == results';
        }
        after := |next|;
        results' := res;
        out := next;
      }
    }
  }

  /** After bridging, every result whose copy number is not 2 still lies in
      a range. */
  lemma BridgedCovered(c: Cohort, results: seq<ResultData>, ranges: seq<Range>, out: seq<Range>,
                       results': seq<ResultData>)
    requires Wf(c, results) && CoveredAll(results, ranges)
    requires forall i :: Covers(ranges, i) ==> Covers(out, i)
    requires Recomputed(c, results, ranges, out, results')
    ensures CoveredAll(results', out)
  {
    forall i | 0 <= i < |results'| && results'[i].copies != 2
      ensures Covers(out, i)
    {
      if !(Covers(out, i) && !Covers(ranges, i)) {
        assert results'[i] == results[i];
      }
    }
  }
}

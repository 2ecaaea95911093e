/** Removal of bad samples and regions (main.cpp, "remove bad samples" and
    "remove bad regions"): a stable two-pointer partition by empty QC. Kept
    entries are moved forward in place, removed ones are appended to a second
    list, and the kept regions' coverage, reference and spread values are moved
    in lock-step in every kept sample before all vectors are cut to size. */
module Compaction {
  import opened CnvData

  /** The positions below `k` whose flag is `want`, in increasing order. */
  function Positions(flags: seq<bool>, want: bool, k: nat): (r: seq<nat>)
    requires k <= |flags|
    ensures |r| <= k
    ensures forall j :: 0 <= j < |r| ==> r[j] < k && flags[r[j]] == want
  {
    if k == 0 then []
    else Positions(flags, want, k - 1) + (if flags[k - 1] == want then [k - 1] else [])
  }

  /** The elements of `s` at the positions `pos`, in that order. */
  function Select<T>(s: seq<T>, pos: seq<nat>): (r: seq<T>)
    requires forall j :: 0 <= j < |pos| ==> pos[j] < |s|
    ensures |r| == |pos|
    ensures forall j :: 0 <= j < |pos| ==> r[j] == s[pos[j]]
  {
    seq(|pos|, j requires 0 <= j < |pos| => s[pos[j]])
  }

  /** Which samples passed QC. */
  function SamplesOk(samples: seq<Sample>): (r: seq<bool>)
    ensures |r| == |samples|
    ensures forall s :: 0 <= s < |samples| ==> (r[s] <==> samples[s].qc == [])
  {
    seq(|samples|, s requires 0 <= s < |samples| => samples[s].qc == [])
  }

  /** Which regions passed QC. */
  function ExonsOk(exons: seq<Exon>): (r: seq<bool>)
    ensures |r| == |exons|
    ensures forall e :: 0 <= e < |exons| ==> (r[e] <==> exons[e].qc == [])
  {
    seq(|exons|, e requires 0 <= e < |exons| => exons[e].qc == [])
  }

  function KeptSamples(samples: seq<Sample>): seq<Sample>
  {
    Select(samples, Positions(SamplesOk(samples), true, |samples|))
  }

  function RemovedSamples(samples: seq<Sample>): seq<Sample>
  {
    Select(samples, Positions(SamplesOk(samples), false, |samples|))
  }

  /** The loop state for the samples before `s`: kept samples moved forward,
      later ones untouched, removed ones collected. */
  predicate SamplesSplit(samples: seq<Sample>, s: nat, a: seq<Sample>, to: nat, removed: seq<Sample>)
    requires s <= |samples|
  {
    var flags := SamplesOk(samples);
    && |a| == |samples|
    && to == |Positions(flags, true, s)| <= s
    && a[..to] == Select(samples, Positions(flags, true, s))
    && (forall i :: s <= i < |a| ==> a[i] == samples[i])
    && removed == Select(samples, Positions(flags, false, s))
  }

  /** One iteration of the sample loop: a sample that passed QC moves to
      position `to`, any other is appended to `removed`. */
  method SampleStep(samples: seq<Sample>, s: nat, a: seq<Sample>, to: nat, removed: seq<Sample>)
    returns (a': seq<Sample>, to': nat, removed': seq<Sample>)
    requires s < |samples| && SamplesSplit(samples, s, a, to, removed)
    ensures SamplesSplit(samples, s + 1, a', to', removed')
  {
    ghost var flags := SamplesOk(samples);
    a', to', removed' := a, to, removed;
    if a[s].qc == [] {
      assert Positions(flags, true, s + 1) == Positions(flags, true, s) + [s];
      assert Positions(flags, false, s + 1) == Positions(flags, false, s);
      if to != s {
        a' := a[to := a[s]];
      }
      assert a'[..to + 1] == a[..to] + [samples[s]];
      to' := to + 1;
    } else {
      assert Positions(flags, true, s + 1) == Positions(flags, true, s);
      assert Positions(flags, false, s + 1) == Positions(flags, false, s) + [s];
      removed' := removed + [a[s]];
    }
  }

  /** The sample loop: kept samples move forward in place, removed ones are
      appended to `removed`, and the list is cut to the kept count. */
  method RemoveBadSamples(samples: seq<Sample>) returns (kept: seq<Sample>, removed: seq<Sample>)
    ensures kept == KeptSamples(samples)
    ensures removed == RemovedSamples(samples)
  {
    var a := samples;
    removed := [];
    var to: nat := 0;
    for s := 0 to |samples|
      invariant SamplesSplit(samples, s, a, to, removed)
    {
      a, to, removed := SampleStep(samples, s, a, to, removed);
    }
    kept := a[..to];
  }

  /** The kept regions' values of one vector, in order. */
  function Moved(v: seq<real>, exons: seq<Exon>): seq<real>
    requires |v| == |exons|
  {
    Select(v, Positions(ExonsOk(exons), true, |exons|))
  }

  /** Sample `x` with its three per-region vectors compacted. */
  function CompactedSample(x: Sample, exons: seq<Exon>): Sample
    requires |x.doc| == |exons| && |x.ref| == |exons| && |x.refStdev| == |exons|
  {
    x.(doc := Moved(x.doc, exons), ref := Moved(x.ref, exons), refStdev := Moved(x.refStdev, exons))
  }

  /** Every sample holds one coverage, reference and spread value per region. */
  predicate Aligned(samples: seq<Sample>, nExons: nat)
  {
    forall s :: 0 <= s < |samples| ==>
      |samples[s].doc| == nExons && |samples[s].ref| == nExons && |samples[s].refStdev| == nExons
  }

  /** Vector `cur` is `orig` with the kept positions below `e` moved to the
      front and everything from `e` on untouched. */
  predicate PartlyMoved(orig: seq<real>, cur: seq<real>, pos: seq<nat>, e: nat)
    requires forall j :: 0 <= j < |pos| ==> pos[j] < |orig|
  {
    && |cur| == |orig|
    && |pos| <= e && |pos| <= |cur|
    && cur[..|pos|] == Select(orig, pos)
    && forall i :: e <= i < |cur| ==> cur[i] == orig[i]
  }

  /** The three vectors of a sample, partly moved. */
  predicate SamplePartlyMoved(orig: Sample, cur: Sample, pos: seq<nat>, e: nat)
    requires forall j :: 0 <= j < |pos| ==> pos[j] < |orig.doc| && pos[j] < |orig.ref| && pos[j] < |orig.refStdev|
  {
    && cur == orig.(doc := cur.doc, ref := cur.ref, refStdev := cur.refStdev)
    && PartlyMoved(orig.doc, cur.doc, pos, e)
    && PartlyMoved(orig.ref, cur.ref, pos, e)
    && PartlyMoved(orig.refStdev, cur.refStdev, pos, e)
  }

  /** One step of the region loop on one vector. */
  lemma MoveStep(orig: seq<real>, cur: seq<real>, flags: seq<bool>, e: nat)
    requires e < |flags| == |orig|
    requires PartlyMoved(orig, cur, Positions(flags, true, e), e)
    ensures var to := |Positions(flags, true, e)|;
            var next := if flags[e] && to != e then cur[to := cur[e]] else cur;
            PartlyMoved(orig, next, Positions(flags, true, e + 1), e + 1)
  {
    var pos := Positions(flags, true, e);
    var to := |pos|;
    if flags[e] {
      var next := if to != e then cur[to := cur[e]] else cur;
      assert Positions(flags, true, e + 1) == pos + [e];
      assert next[..to + 1] == cur[..to] + [orig[e]];
    }
  }

  /** Entry `from` copied to position `to` in all three vectors of a sample. */
  function MoveEntry(x: Sample, from: nat, to: nat): Sample
    requires from < |x.doc| && from < |x.ref| && from < |x.refStdev|
    requires to < |x.doc| && to < |x.ref| && to < |x.refStdev|
  {
    x.(doc := x.doc[to := x.doc[from]], ref := x.ref[to := x.ref[from]],
       refStdev := x.refStdev[to := x.refStdev[from]])
  }

  predicate Holds(samples: seq<Sample>, i: nat)
  {
    forall s :: 0 <= s < |samples| ==>
      i < |samples[s].doc| && i < |samples[s].ref| && i < |samples[s].refStdev|
  }

  /** The inner loop over the samples: moves entry `from` to position `to`. */
  method MoveEntries(samples: seq<Sample>, from: nat, to: nat) returns (out: seq<Sample>)
    requires Holds(samples, from) && Holds(samples, to)
    ensures |out| == |samples|
    ensures forall s :: 0 <= s < |samples| ==> out[s] == MoveEntry(samples[s], from, to)
  {
    out := samples;
    for s := 0 to |samples|
      invariant |out| == |samples|
      invariant forall k :: 0 <= k < s ==> out[k] == MoveEntry(samples[k], from, to)
      invariant forall k :: s <= k < |samples| ==> out[k] == samples[k]
    {
      var x := out[s];
      out := out[s := x.(doc := x.doc[to := x.doc[from]], ref := x.ref[to := x.ref[from]],
                         refStdev := x.refStdev[to := x.refStdev[from]])];
    }
  }

  /** Cuts all three vectors of every sample to their first `n` entries. */
  method Resize(samples: seq<Sample>, n: nat) returns (out: seq<Sample>)
    requires forall s :: 0 <= s < |samples| ==>
               n <= |samples[s].doc| && n <= |samples[s].ref| && n <= |samples[s].refStdev|
    ensures |out| == |samples|
    ensures forall s :: 0 <= s < |samples| ==>
              out[s] == samples[s].(doc := samples[s].doc[..n], ref := samples[s].ref[..n],
                                    refStdev := samples[s].refStdev[..n])
  {
    out := samples;
    for s := 0 to |samples|
      invariant |out| == |samples|
      invariant forall k :: 0 <= k < s ==>
                  out[k] == samples[k].(doc := samples[k].doc[..n], ref := samples[k].ref[..n],
                                        refStdev := samples[k].refStdev[..n])
      invariant forall k :: s <= k < |samples| ==> out[k] == samples[k]
    {
      var x := out[s];
      out := out[s := x.(doc := x.doc[..n], ref := x.ref[..n], refStdev := x.refStdev[..n])];
    }
  }

  /** The kept regions, renumbered by their new position. */
  function KeptExons(exons: seq<Exon>): (r: seq<Exon>)
  {
    var pos := Positions(ExonsOk(exons), true, |exons|);
    seq(|pos|, k requires 0 <= k < |pos| => exons[pos[k]].(index := k))
  }

  function RemovedExons(exons: seq<Exon>): seq<Exon>
  {
    Select(exons, Positions(ExonsOk(exons), false, |exons|))
  }

  /** The loop state for the regions before `e`: kept regions moved forward
      and renumbered, later ones untouched, removed ones collected. */
  predicate ExonsPartly(exons: seq<Exon>, e: nat, a: seq<Exon>, to: nat, removed: seq<Exon>)
    requires e <= |exons|
  {
    var flags := ExonsOk(exons);
    var pos := Positions(flags, true, e);
    && |a| == |exons|
    && to == |pos| <= e
    && (forall k :: 0 <= k < to ==> a[k] == exons[pos[k]].(index := k))
    && (forall i :: e <= i < |a| ==> a[i] == exons[i])
    && removed == Select(exons, Positions(flags, false, e))
  }

  /** The loop state of the samples' vectors for the regions before `e`. */
  predicate SamplesPartly(samples: seq<Sample>, ss: seq<Sample>, exons: seq<Exon>, e: nat)
    requires e <= |exons| && Aligned(samples, |exons|)
  {
    && |ss| == |samples|
    && forall s :: 0 <= s < |samples| ==>
         SamplePartlyMoved(samples[s], ss[s], Positions(ExonsOk(exons), true, e), e)
  }

  /** The entries the region loop reads and writes exist in every sample. */
  lemma SamplesHold(samples: seq<Sample>, ss: seq<Sample>, exons: seq<Exon>, e: nat)
    requires e < |exons| && Aligned(samples, |exons|)
    requires SamplesPartly(samples, ss, exons, e)
    ensures Holds(ss, e) && Holds(ss, |Positions(ExonsOk(exons), true, e)|)
  {
  }

  /** A kept region at `e` moves to `to` in every sample. */
  lemma SamplesMoved(samples: seq<Sample>, ss: seq<Sample>, ss': seq<Sample>, exons: seq<Exon>, e: nat, to: nat)
    requires e < |exons| && Aligned(samples, |exons|)
    requires SamplesPartly(samples, ss, exons, e)
    requires to == |Positions(ExonsOk(exons), true, e)| && exons[e].qc == []
    requires Holds(ss, e) && Holds(ss, to)
    requires |ss'| == |ss| && forall s :: 0 <= s < |ss| ==> ss'[s] == MoveEntry(ss[s], e, to)
    ensures SamplesPartly(samples, ss', exons, e + 1)
  {
    var flags := ExonsOk(exons);
    forall s | 0 <= s < |samples|
      ensures SamplePartlyMoved(samples[s], ss'[s], Positions(flags, true, e + 1), e + 1)
    {
      MoveStep(samples[s].doc, ss[s].doc, flags, e);
      MoveStep(samples[s].ref, ss[s].ref, flags, e);
      MoveStep(samples[s].refStdev, ss[s].refStdev, flags, e);
    }
  }

  /** A region that stays where it is (removed, or already in place) leaves
      the samples' vectors alone. */
  lemma SamplesKept(samples: seq<Sample>, ss: seq<Sample>, exons: seq<Exon>, e: nat)
    requires e < |exons| && Aligned(samples, |exons|)
    requires SamplesPartly(samples, ss, exons, e)
    requires exons[e].qc != [] || |Positions(ExonsOk(exons), true, e)| == e
    ensures SamplesPartly(samples, ss, exons, e + 1)
  {
    var flags := ExonsOk(exons);
    forall s | 0 <= s < |samples|
      ensures SamplePartlyMoved(samples[s], ss[s], Positions(flags, true, e + 1), e + 1)
    {
      MoveStep(samples[s].doc, ss[s].doc, flags, e);
      MoveStep(samples[s].ref, ss[s].ref, flags, e);
      MoveStep(samples[s].refStdev, ss[s].refStdev, flags, e);
    }
  }

  /** A region that passed QC moves to position `to` and is renumbered. */
  lemma ExonMoved(exons: seq<Exon>, e: nat, a: seq<Exon>, to: nat, removed: seq<Exon>)
    requires e < |exons| && ExonsPartly(exons, e, a, to, removed)
    requires exons[e].qc == [] && to != e
    ensures ExonsPartly(exons, e + 1, a[to := a[e].(index := to)], to + 1, removed)
  {
    var flags := ExonsOk(exons);
    var pos := Positions(flags, true, e);
    var pos' := Positions(flags, true, e + 1);
    assert pos' == pos + [e];
    assert Positions(flags, false, e + 1) == Positions(flags, false, e);
    var a' := a[to := a[e].(index := to)];
    forall k | 0 <= k < to + 1
      ensures a'[k] == exons[pos'[k]].(index := k)
    {
      if k < to {
        assert a'[k] == a[k] && pos'[k] == pos[k];
      }
    }
    assert forall i :: e + 1 <= i < |a'| ==> a'[i] == a[i];
  }

  /** A region that passed QC and is already in place keeps its number. */
  lemma ExonInPlace(exons: seq<Exon>, e: nat, a: seq<Exon>, to: nat, removed: seq<Exon>)
    requires e < |exons| && ExonsPartly(exons, e, a, to, removed)
    requires exons[e].qc == [] && to == e && exons[e].index == e
    ensures ExonsPartly(exons, e + 1, a, to + 1, removed)
  {
    var flags := ExonsOk(exons);
    var pos := Positions(flags, true, e);
    var pos' := Positions(flags, true, e + 1);
    assert pos' == pos + [e];
    assert Positions(flags, false, e + 1) == Positions(flags, false, e);
    forall k | 0 <= k < to + 1
      ensures a[k] == exons[pos'[k]].(index := k)
    {
      if k < to {
        assert pos'[k] == pos[k];
      }
    }
  }

  /** A region that failed QC is appended to the removed ones. */
  lemma ExonDropped(exons: seq<Exon>, e: nat, a: seq<Exon>, to: nat, removed: seq<Exon>)
    requires e < |exons| && ExonsPartly(exons, e, a, to, removed)
    requires exons[e].qc != []
    ensures ExonsPartly(exons, e + 1, a, to, removed + [a[e]])
  {
    var flags := ExonsOk(exons);
    assert Positions(flags, true, e + 1) == Positions(flags, true, e);
    assert Positions(flags, false, e + 1) == Positions(flags, false, e) + [e];
  }

  /** One iteration of the region loop: region `e` and its entries in every
      sample move to position `to` when it passed QC, otherwise the region is
      appended to `removed`. */
  method RegionStep(samples: seq<Sample>, exons: seq<Exon>, e: nat,
                    a: seq<Exon>, ss: seq<Sample>, to: nat, removed: seq<Exon>)
    returns (a': seq<Exon>, ss': seq<Sample>, to': nat, removed': seq<Exon>)
    requires forall i :: 0 <= i < |exons| ==> exons[i].index == i
    requires e < |exons| && Aligned(samples, |exons|)
    requires ExonsPartly(exons, e, a, to, removed) && SamplesPartly(samples, ss, exons, e)
    ensures ExonsPartly(exons, e + 1, a', to', removed') && SamplesPartly(samples, ss', exons, e + 1)
  {
    SamplesHold(samples, ss, exons, e);
    a', ss', to', removed' := a, ss, to, removed;
    if a[e].qc == [] {
      if to != e {
        ExonMoved(exons, e, a, to, removed);
        a' := a[to := a[e].(index := to)];
        ss' := MoveEntries(ss, e, to);
        SamplesMoved(samples, ss, ss', exons, e, to);
      } else {
        ExonInPlace(exons, e, a, to, removed);
        SamplesKept(samples, ss, exons, e);
      }
      to' := to + 1;
    } else {
      ExonDropped(exons, e, a, to, removed);
      removed' := removed + [a[e]];
      SamplesKept(samples, ss, exons, e);
    }
  }

  /** After the last region the vectors are cut to the kept count. */
  lemma RegionsDone(samples: seq<Sample>, ss: seq<Sample>, out: seq<Sample>, exons: seq<Exon>)
    requires Aligned(samples, |exons|) && SamplesPartly(samples, ss, exons, |exons|)
    requires var n := |Positions(ExonsOk(exons), true, |exons|)|;
             |out| == |ss| && forall s :: 0 <= s < |ss| ==>
               n <= |ss[s].doc| && n <= |ss[s].ref| && n <= |ss[s].refStdev| &&
               out[s] == ss[s].(doc := ss[s].doc[..n], ref := ss[s].ref[..n], refStdev := ss[s].refStdev[..n])
    ensures forall s :: 0 <= s < |samples| ==> out[s] == CompactedSample(samples[s], exons)
  {
    var pos := Positions(ExonsOk(exons), true, |exons|);
    forall s | 0 <= s < |samples|
      ensures out[s] == CompactedSample(samples[s], exons)
    {
      assert SamplePartlyMoved(samples[s], ss[s], pos, |exons|);
    }
  }

  /** After the last region, the kept regions are the first `to` entries. */
  lemma ExonsDone(exons: seq<Exon>, a: seq<Exon>, to: nat, removed: seq<Exon>)
    requires ExonsPartly(exons, |exons|, a, to, removed)
    ensures to <= |a| && a[..to] == KeptExons(exons) && removed == RemovedExons(exons)
  {
  }

  /** The region loop, then the cut to size. The kept samples' vectors are
      moved along; the removed samples are not touched (they are not passed). */
  method RemoveBadRegions(samples: seq<Sample>, exons: seq<Exon>)
    returns (outSamples: seq<Sample>, kept: seq<Exon>, removed: seq<Exon>)
    requires forall e :: 0 <= e < |exons| ==> exons[e].index == e
    requires Aligned(samples, |exons|)
    ensures kept == KeptExons(exons)
    ensures removed == RemovedExons(exons)
    ensures |outSamples| == |samples|
    ensures forall s :: 0 <= s < |samples| ==> outSamples[s] == CompactedSample(samples[s], exons)
  {
    var a := exons;
    var ss := samples;
    removed := [];
    var to: nat := 0;
    for e := 0 to |exons|
      invariant ExonsPartly(exons, e, a, to, removed)
      invariant SamplesPartly(samples, ss, exons, e)
    {
      a, ss, to, removed := RegionStep(samples, exons, e, a, ss, to, removed);
    }
    ExonsDone(exons, a, to, removed);
    kept := a[..to];
    outSamples := Resize(ss, to);
    RegionsDone(samples, ss, outSamples, exons);
  }

  // ---------------------------------------------------------------------
  // Properties

  /** The positions are strictly increasing: the partition is stable ... */
  lemma {:induction false} PositionsIncreasing(flags: seq<bool>, want: bool, k: nat)
    requires k <= |flags|
    ensures forall a, b :: 0 <= a < b < |Positions(flags, want, k)| ==>
              Positions(flags, want, k)[a] < Positions(flags, want, k)[b]
  {
    if k > 0 {
      PositionsIncreasing(flags, want, k - 1);
      var r := Positions(flags, want, k - 1);
      var r2 := Positions(flags, want, k);
      forall a, b | 0 <= a < b < |r2|
        ensures r2[a] < r2[b]
      {
        assert r2[a] == r[a];
        if b < |r| {
          assert r[a] < r[b];
          assert r2[b] == r[b];
        } else {
          assert r2[b] == k - 1;
        }
      }
    }
  }

  /** ... and complete: every entry whose flag is `want` is named. */
  lemma {:induction false} PositionsComplete(flags: seq<bool>, want: bool, k: nat)
    requires k <= |flags|
    ensures forall i :: 0 <= i < k && flags[i] == want ==> i in Positions(flags, want, k)
  {
    if k > 0 {
      PositionsComplete(flags, want, k - 1);
      var r := Positions(flags, want, k - 1);
      var r2 := Positions(flags, want, k);
      assert r2[..|r|] == r;
      forall i | 0 <= i < k && flags[i] == want
        ensures i in r2
      {
        if i < k - 1 {
          var j :| 0 <= j < |r| && r[j] == i;
          assert r2[j] == i;
        } else {
          assert r2[|r|] == i;
        }
      }
    }
  }

  /** Kept and removed together account for every entry exactly once. */
  lemma {:induction false} PositionsSplit(flags: seq<bool>, k: nat)
    requires k <= |flags|
    ensures |Positions(flags, true, k)| + |Positions(flags, false, k)| == k
  {
    if k > 0 {
      PositionsSplit(flags, k - 1);
    }
  }

  /** Every entry whose flag is `want` is among the selected ones. */
  lemma SelectComplete<T>(s: seq<T>, flags: seq<bool>, want: bool)
    requires |flags| == |s|
    ensures forall i :: 0 <= i < |s| && flags[i] == want ==> s[i] in Select(s, Positions(flags, want, |s|))
  {
    var pos := Positions(flags, want, |s|);
    PositionsComplete(flags, want, |s|);
    forall i | 0 <= i < |s| && flags[i] == want
      ensures s[i] in Select(s, pos)
    {
      var j :| 0 <= j < |pos| && pos[j] == i;
      assert Select(s, pos)[j] == s[i];
    }
  }

  /** The kept samples are exactly those with an empty QC, in their original
      order; the removed ones are the rest, in order. */
  lemma SamplePartition(samples: seq<Sample>)
    ensures |KeptSamples(samples)| + |RemovedSamples(samples)| == |samples|
    ensures forall k :: 0 <= k < |KeptSamples(samples)| ==> KeptSamples(samples)[k].qc == []
    ensures forall k :: 0 <= k < |RemovedSamples(samples)| ==> RemovedSamples(samples)[k].qc != []
    ensures forall s :: 0 <= s < |samples| && samples[s].qc == [] ==> samples[s] in KeptSamples(samples)
    ensures forall s :: 0 <= s < |samples| && samples[s].qc != [] ==> samples[s] in RemovedSamples(samples)
    ensures var pos := Positions(SamplesOk(samples), true, |samples|);
            forall a, b :: 0 <= a < b < |pos| ==> pos[a] < pos[b]
  {
    var flags := SamplesOk(samples);
    PositionsSplit(flags, |samples|);
    PositionsIncreasing(flags, true, |samples|);
    SelectComplete(samples, flags, true);
    SelectComplete(samples, flags, false);
  }

  /** The same for regions; besides, kept regions are renumbered by position. */
  lemma ExonPartition(exons: seq<Exon>)
    ensures |KeptExons(exons)| + |RemovedExons(exons)| == |exons|
    ensures forall k :: 0 <= k < |KeptExons(exons)| ==> KeptExons(exons)[k].qc == [] && KeptExons(exons)[k].index == k
    ensures forall k :: 0 <= k < |RemovedExons(exons)| ==> RemovedExons(exons)[k].qc != []
    ensures var pos := Positions(ExonsOk(exons), true, |exons|);
            && (forall a, b :: 0 <= a < b < |pos| ==> pos[a] < pos[b])
            && (forall k :: 0 <= k < |pos| ==> KeptExons(exons)[k] == exons[pos[k]].(index := k))
            && (forall e :: 0 <= e < |exons| && exons[e].qc == [] ==> e in pos)
  {
    var flags := ExonsOk(exons);
    PositionsSplit(flags, |exons|);
    PositionsIncreasing(flags, true, |exons|);
    PositionsComplete(flags, true, |exons|);
  }

  /** After compaction every kept sample's vectors have one entry per kept
      region, and entry k is the old entry of the k-th kept region. */
  lemma CompactedCohort(samples: seq<Sample>, exons: seq<Exon>)
    requires Aligned(samples, |exons|)
    ensures var out := seq(|samples|, s requires 0 <= s < |samples| => CompactedSample(samples[s], exons));
            && Compacted(Cohort(out, KeptExons(exons)))
            && forall s, k :: 0 <= s < |samples| && 0 <= k < |KeptExons(exons)| ==>
                 var e := Positions(ExonsOk(exons), true, |exons|)[k];
                 out[s].doc[k] == samples[s].doc[e] && out[s].ref[k] == samples[s].ref[e]
                 && out[s].refStdev[k] == samples[s].refStdev[e]
  {
  }
}

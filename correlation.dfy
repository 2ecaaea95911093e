/** Sample similarity ranking (main.cpp, "calculate correlation between all
    samples"): every sample gets one entry per sample of the cohort, holding a
    covariance-like score of the normalized coverage centred at 1, or -1 for
    itself and for samples that must not serve as reference; the list is then
    sorted by descending score. */
module Correlation {
  import opened CnvData

  /** The score given to the sample itself and to `noref` samples. */
  const Sentinel: real := -1.0

  /** The sum over the first `n` regions of (a[e]-1)*(b[e]-1). */
  function CrossSum(a: seq<real>, b: seq<real>, n: nat): real
    requires n <= |a| && n <= |b|
  {
    if n == 0 then 0.0 else CrossSum(a, b, n - 1) + (a[n - 1] - 1.0) * (b[n - 1] - 1.0)
  }

  /** The loop that accumulates the sum over all regions. */
  method ComputeCrossSum(a: seq<real>, b: seq<real>, n: nat) returns (sum: real)
    requires n <= |a| && n <= |b|
    ensures sum == CrossSum(a, b, n)
  {
    sum := 0.0;
    for e := 0 to n
      invariant sum == CrossSum(a, b, e)
    {
      sum := sum + (a[e] - 1.0) * (b[e] - 1.0);
    }
  }

  /** The samples' coverage covers `n` regions and their spreads are non-zero,
      so the score (a division by both spreads and by `n`) is defined. */
  predicate Scorable(samples: seq<Sample>, n: nat)
  {
    && n > 0
    && forall s :: 0 <= s < |samples| ==> |samples[s].doc| >= n && samples[s].docStdev != 0.0
  }

  /** The entry of sample `j` in the list of sample `i`. */
  function Entry(samples: seq<Sample>, n: nat, i: nat, j: nat): (r: SampleCorrelation)
    requires Scorable(samples, n) && i < |samples| && j < |samples|
    ensures r.sample == j
    ensures i == j || samples[j].noref ==> r.correlation == Sentinel
  {
    if i == j || samples[j].noref then SampleCorrelation(j, Sentinel)
    else
      var sum := CrossSum(samples[i].doc, samples[j].doc, n);
      SampleCorrelation(j, sum / samples[i].docStdev / samples[j].docStdev / n as real)
  }

  /** The entries of sample `i`'s list in the order they are appended. */
  function Entries(samples: seq<Sample>, n: nat, i: nat): (r: seq<SampleCorrelation>)
    requires Scorable(samples, n) && i < |samples|
    ensures |r| == |samples|
    ensures forall j :: 0 <= j < |samples| ==> r[j] == Entry(samples, n, i, j)
  {
    seq(|samples|, j requires 0 <= j < |samples| => Entry(samples, n, i, j))
  }

  predicate SortedDesc(s: seq<SampleCorrelation>)
  {
    forall a, b :: 0 <= a < b < |s| ==> s[a].correlation >= s[b].correlation
  }

  function InsertDesc(x: SampleCorrelation, s: seq<SampleCorrelation>): (r: seq<SampleCorrelation>)
    ensures |r| == |s| + 1
    ensures multiset(r) == multiset(s) + multiset{x}
  {
    if s == [] || x.correlation >= s[0].correlation then
      [x] + s
    else
      assert s == [s[0]] + s[1..];
      [s[0]] + InsertDesc(x, s[1..])
  }

  lemma {:induction false} InsertDescSorted(x: SampleCorrelation, s: seq<SampleCorrelation>)
    requires SortedDesc(s)
    ensures SortedDesc(InsertDesc(x, s))
  {
    if s != [] && x.correlation < s[0].correlation {
      var t := InsertDesc(x, s[1..]);
      InsertDescSorted(x, s[1..]);
      forall k | 0 <= k < |t|
        ensures s[0].correlation >= t[k].correlation
      {
        assert t[k] in multiset(t);
        if t[k] != x {
          assert t[k] in multiset(s[1..]);
          var m :| 0 <= m < |s| - 1 && s[1..][m] == t[k];
          assert s[m + 1] == t[k];
        }
      }
    }
  }

  /** std::sort by descending correlation. The source's sort is not stable, so
      all that is promised is a descending permutation. */
  function SortDesc(s: seq<SampleCorrelation>): (r: seq<SampleCorrelation>)
    ensures |r| == |s|
    ensures multiset(r) == multiset(s)
    ensures SortedDesc(r)
  {
    if s == [] then []
    else
      assert s == [s[0]] + s[1..];
      var t := SortDesc(s[1..]);
      InsertDescSorted(s[0], t);
      InsertDesc(s[0], t)
  }

  /** Sample `i` after ranking: its entries appended and the list sorted. */
  function Ranked(samples: seq<Sample>, n: nat, i: nat): Sample
    requires Scorable(samples, n) && i < |samples|
  {
    samples[i].(correlAll := SortDesc(samples[i].correlAll + Entries(samples, n, i)))
  }

  /** The inner loop over the other samples for sample `i`. */
  method RankSample(samples: seq<Sample>, n: nat, i: nat) returns (r: Sample)
    requires Scorable(samples, n) && i < |samples|
    ensures r == Ranked(samples, n, i)
  {
    var list := samples[i].correlAll;
    for j := 0 to |samples|
      invariant list == samples[i].correlAll + Entries(samples, n, i)[..j]
    {
      assert Entries(samples, n, i)[..j + 1] == Entries(samples, n, i)[..j] + [Entry(samples, n, i, j)];
      if i == j {
        list := list + [SampleCorrelation(j, Sentinel)];
      } else {
        // skip non-reference samples
        if samples[j].noref {
          list := list + [SampleCorrelation(j, Sentinel)];
          continue;
        }
        var sum := ComputeCrossSum(samples[i].doc, samples[j].doc, n);
        list := list + [SampleCorrelation(j, sum / samples[i].docStdev / samples[j].docStdev / n as real)];
      }
    }
    assert Entries(samples, n, i)[..|samples|] == Entries(samples, n, i);
    r := samples[i].(correlAll := SortDesc(list));
  }

  /** The ranking stage over all samples (n is the number of regions). Only the
      correlation lists change, and each is computed from the coverage and
      spreads, which the stage does not touch. */
  method RankAll(samples: seq<Sample>, n: nat) returns (out: seq<Sample>)
    requires Scorable(samples, n)
    ensures |out| == |samples|
    ensures forall i :: 0 <= i < |samples| ==> out[i] == Ranked(samples, n, i)
  {
    out := samples;
    for i := 0 to |samples|
      invariant |out| == |samples|
      invariant forall k :: 0 <= k < i ==> out[k] == Ranked(samples, n, k)
      invariant forall k :: i <= k < |samples| ==> out[k] == samples[k]
    {
      var r := RankSample(samples, n, i);
      out := out[i := r];
    }
  }

  // ---------------------------------------------------------------------
  // Properties

  /** A freshly ranked list is the sorted entries. */
  lemma RankedFresh(samples: seq<Sample>, n: nat, i: nat)
    requires Scorable(samples, n) && i < |samples|
    requires samples[i].correlAll == []
    ensures Ranked(samples, n, i).correlAll == SortDesc(Entries(samples, n, i))
  {
    assert [] + Entries(samples, n, i) == Entries(samples, n, i);
  }

  /** Every entry of the sorted list is the entry of an existing sample. */
  lemma SortedEntries(samples: seq<Sample>, n: nat, i: nat)
    requires Scorable(samples, n) && i < |samples|
    ensures var l := SortDesc(Entries(samples, n, i));
            forall k :: 0 <= k < |l| ==>
              l[k].sample < |samples| && l[k] == Entry(samples, n, i, l[k].sample)
  {
    var es := Entries(samples, n, i);
    var l := SortDesc(es);
    forall k | 0 <= k < |l|
      ensures l[k].sample < |samples| && l[k] == Entry(samples, n, i, l[k].sample)
    {
      assert l[k] in multiset(es);
      var j :| 0 <= j < |es| && es[j] == l[k];
    }
  }

  /** Every entry of a freshly ranked list is the entry of an existing sample. */
  lemma RankedEntries(samples: seq<Sample>, n: nat, i: nat)
    requires Scorable(samples, n) && i < |samples|
    requires samples[i].correlAll == []
    ensures var l := Ranked(samples, n, i).correlAll;
            forall k :: 0 <= k < |l| ==>
              l[k].sample < |samples| && l[k] == Entry(samples, n, i, l[k].sample)
  {
    RankedFresh(samples, n, i);
    SortedEntries(samples, n, i);
  }

  /** Starting from an empty list, every sample ends up with exactly one entry
      per sample of the cohort, sorted by descending score; its own entry and
      those of `noref` samples carry the sentinel -1. */
  lemma RankedList(samples: seq<Sample>, n: nat, i: nat)
    requires Scorable(samples, n) && i < |samples|
    requires samples[i].correlAll == []
    ensures var l := Ranked(samples, n, i).correlAll;
            && |l| == |samples|
            && SortedDesc(l)
            && (forall k :: 0 <= k < |l| ==> l[k].sample < |samples|)
            && (forall j :: 0 <= j < |samples| ==> multiset(l)[Entry(samples, n, i, j)] == 1)
            && (forall k :: 0 <= k < |l| && (l[k].sample == i || samples[l[k].sample].noref)
                  ==> l[k].correlation == Sentinel)
  {
    RankedFresh(samples, n, i);
    SortedEntries(samples, n, i);
    SortedOnce(samples, n, i);
  }

  /** The sorted list holds every sample's entry exactly once. */
  lemma SortedOnce(samples: seq<Sample>, n: nat, i: nat)
    requires Scorable(samples, n) && i < |samples|
    ensures forall j :: 0 <= j < |samples| ==>
              multiset(SortDesc(Entries(samples, n, i)))[Entry(samples, n, i, j)] == 1
  {
    var es := Entries(samples, n, i);
    assert es[..|samples|] == es;
    forall j | 0 <= j < |samples|
      ensures multiset(es)[Entry(samples, n, i, j)] == 1
    {
      EntryOccursOnce(samples, n, i, j, |samples|);
    }
  }

  /** Entry j occurs once among the first m entries when j < m. */
  lemma {:induction false} EntryOccursOnce(samples: seq<Sample>, n: nat, i: nat, j: nat, m: nat)
    requires Scorable(samples, n) && i < |samples| && j < |samples| && m <= |samples|
    ensures multiset(Entries(samples, n, i)[..m])[Entry(samples, n, i, j)] == (if j < m then 1 else 0)
  {
    var es := Entries(samples, n, i);
    if m > 0 {
      EntryOccursOnce(samples, n, i, j, m - 1);
      assert es[..m] == es[..m - 1] + [es[m - 1]];
      assert es[m - 1].sample == m - 1;
    }
  }
}

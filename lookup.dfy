/** sampleByName: the sample with a given name, looked up first among the
    QC-passing samples and then among the removed ones. A removed sample is
    an error unless the caller accepts removed samples; an unknown name is an
    error that lists every valid name. The source's exceptions become the two
    error cases of the result. */
module Lookup {
  import opened CnvData

  datatype LookupResult =
    | Found(sample: Sample)
    | FailedQc(name: string, qc: seq<SampleFlag>)
    | Invalid(name: string, valid: seq<string>)

  /** The position of the first sample named `name`, or |samples| if none is. */
  function FirstNamed(samples: seq<Sample>, name: string): (i: nat)
    ensures i <= |samples|
    ensures i < |samples| ==> samples[i].name == name
    ensures forall j :: 0 <= j < i ==> samples[j].name != name
  {
    if samples == [] then 0
    else if samples[0].name == name then 0
    else 1 + FirstNamed(samples[1..], name)
  }

  /** The names of the samples, in order. */
  function Names(samples: seq<Sample>): (r: seq<string>)
    ensures |r| == |samples| && forall i :: 0 <= i < |samples| ==> r[i] == samples[i].name
  {
    seq(|samples|, i requires 0 <= i < |samples| => samples[i].name)
  }

  /** The lookup: kept samples first, then removed ones, then the error. */
  function SampleByName(name: string, samples: seq<Sample>, removed: seq<Sample>, removedOk: bool): LookupResult
  {
    var i := FirstNamed(samples, name);
    if i < |samples| then Found(samples[i])
    else
      var j := FirstNamed(removed, name);
      if j < |removed| then
        if !removedOk then FailedQc(name, removed[j].qc) else Found(removed[j])
      else Invalid(name, Names(samples) + Names(removed))
  }

  /** The search of one list as the source's loop runs it. */
  method Search(samples: seq<Sample>, name: string) returns (i: nat)
    ensures i == FirstNamed(samples, name)
  {
    i := 0;
    while i < |samples|
      invariant i <= |samples|
      invariant forall j :: 0 <= j < i ==> samples[j].name != name
    {
      if samples[i].name == name {
        FirstNamedIs(samples, name, i);
        return;
      }
      i := i + 1;
    }
    FirstNamedIs(samples, name, i);
  }

  /** The list of valid names, built by the two loops of the source. */
  method CollectNames(samples: seq<Sample>, removed: seq<Sample>) returns (names: seq<string>)
    ensures names == Names(samples) + Names(removed)
  {
    names := [];
    for k := 0 to |samples|
      invariant names == Names(samples[..k])
    {
      names := names + [samples[k].name];
    }
    assert samples[..|samples|] == samples;
    for k := 0 to |removed|
      invariant names == Names(samples) + Names(removed[..k])
    {
      names := names + [removed[k].name];
    }
    assert removed[..|removed|] == removed;
  }

  method LookupSample(name: string, samples: seq<Sample>, removed: seq<Sample>, removedOk: bool)
    returns (r: LookupResult)
    ensures r == SampleByName(name, samples, removed, removedOk)
  {
    var i := Search(samples, name);
    if i < |samples| {
      return Found(samples[i]);
    }
    var j := Search(removed, name);
    if j < |removed| {
      if !removedOk {
        return FailedQc(name, removed[j].qc);
      }
      return Found(removed[j]);
    }
    var names := CollectNames(samples, removed);
    r := Invalid(name, names);
  }

  // ---------------------------------------------------------------------
  // Properties

  /** The first named sample is characterised by its position: named `name`
      and no earlier sample is. */
  lemma {:induction false} FirstNamedIs(samples: seq<Sample>, name: string, i: nat)
    requires i <= |samples|
    requires i < |samples| ==> samples[i].name == name
    requires forall j :: 0 <= j < i ==> samples[j].name != name
    ensures FirstNamed(samples, name) == i
  {
    if samples != [] && samples[0].name != name {
      assert samples == [samples[0]] + samples[1..];
      FirstNamedIs(samples[1..], name, i - 1);
    }
  }

  predicate Named(samples: seq<Sample>, name: string)
  {
    exists i :: 0 <= i < |samples| && samples[i].name == name
  }

  /** A sample is found exactly when a QC-passing sample has the name, or a
      removed one has it and removed samples are accepted; what is found has
      the name and is the first such kept sample, if there is one. */
  lemma FoundSample(name: string, samples: seq<Sample>, removed: seq<Sample>, removedOk: bool)
    ensures var r := SampleByName(name, samples, removed, removedOk);
            && (r.Found? <==> Named(samples, name) || (removedOk && Named(removed, name)))
            && (r.Found? ==> r.sample.name == name && (r.sample in samples || r.sample in removed))
            && (Named(samples, name) ==> r == Found(samples[FirstNamed(samples, name)]))
  {
    var i := FirstNamed(samples, name);
    var j := FirstNamed(removed, name);
    if Named(samples, name) {
      var k :| 0 <= k < |samples| && samples[k].name == name;
      assert i <= k;
    }
    if Named(removed, name) {
      var k :| 0 <= k < |removed| && removed[k].name == name;
      assert j <= k;
    }
  }

  /** The QC error is raised exactly when only a removed sample has the name
      and removed samples are not accepted; it carries that sample's QC. */
  lemma FailedQcCase(name: string, samples: seq<Sample>, removed: seq<Sample>, removedOk: bool)
    ensures var r := SampleByName(name, samples, removed, removedOk);
            && (r.FailedQc? <==> !Named(samples, name) && Named(removed, name) && !removedOk)
            && (r.FailedQc? ==> r.name == name && r.qc == removed[FirstNamed(removed, name)].qc)
  {
    var j := FirstNamed(removed, name);
    if Named(removed, name) {
      var k :| 0 <= k < |removed| && removed[k].name == name;
      assert j <= k;
    }
  }

  /** The name is invalid exactly when no sample has it; the error then lists
      every kept name and then every removed name, and the name is not among
      them. */
  lemma InvalidCase(name: string, samples: seq<Sample>, removed: seq<Sample>, removedOk: bool)
    ensures var r := SampleByName(name, samples, removed, removedOk);
            && (r.Invalid? <==> !Named(samples, name) && !Named(removed, name))
            && (r.Invalid? ==> |r.valid| == |samples| + |removed| && name !in r.valid)
  {
    var i := FirstNamed(samples, name);
    var j := FirstNamed(removed, name);
    if Named(samples, name) {
      var k :| 0 <= k < |samples| && samples[k].name == name;
      assert i <= k;
    }
    if Named(removed, name) {
      var k :| 0 <= k < |removed| && removed[k].name == name;
      assert j <= k;
    }
  }
}

/** The Merge tool: two or more PDFs combined into one document holding every
    page of every file, files in list order and pages in their own order. */
module MergePdf {
  import opened PdfModel
  import opened FileDropzone

  /** The bytes of the files, in list order. */
  function Inputs(files: seq<ManagedFile>): (r: seq<Bytes>)
    ensures |r| == |files| && forall k :: 0 <= k < |files| ==> r[k] == files[k].file.data
  {
    seq(|files|, k requires 0 <= k < |files| => files[k].file.data)
  }

  /** Every file loads. */
  predicate AllLoad(codec: Codec, inputs: seq<Bytes>)
  {
    forall k :: 0 <= k < |inputs| ==> codec.load(inputs[k]).Ok?
  }

  /** The pages of the inputs, concatenated in list order; the first input that
      does not load ends the merge. */
  function Merged(codec: Codec, inputs: seq<Bytes>): Result<Document>
    decreases |inputs|
  {
    if inputs == [] then Ok([])
    else
      match Merged(codec, inputs[..|inputs| - 1])
      case Err(m) => Err(m)
      case Ok(prefix) =>
        match codec.load(inputs[|inputs| - 1])
        case Err(m) => Err(m)
        case Ok(doc) => Ok(prefix + doc)
  }

  /** The total page count of inputs that all load. */
  function PageCount(codec: Codec, inputs: seq<Bytes>): nat
    requires AllLoad(codec, inputs)
    decreases |inputs|
  {
    if inputs == [] then 0
    else PageCount(codec, inputs[..|inputs| - 1]) + |codec.load(inputs[|inputs| - 1]).value|
  }

  /** The merge succeeds exactly when every input loads, and then its page count
      is the sum of the inputs' page counts. */
  lemma {:induction false} MergedOkIffAllLoad(codec: Codec, inputs: seq<Bytes>)
    ensures Merged(codec, inputs).Ok? <==> AllLoad(codec, inputs)
    ensures Merged(codec, inputs).Ok? ==> |Merged(codec, inputs).value| == PageCount(codec, inputs)
    decreases |inputs|
  {
    if inputs != [] {
      var init := inputs[..|inputs| - 1];
      MergedOkIffAllLoad(codec, init);
      assert forall k :: 0 <= k < |init| ==> init[k] == inputs[k];
      if !AllLoad(codec, init) {
        var k :| 0 <= k < |init| && !codec.load(init[k]).Ok?;
        assert !codec.load(inputs[k]).Ok?;
      }
    }
  }

  /** Merging a list merges its two halves and concatenates the results. */
  lemma {:induction false} MergedAppend(codec: Codec, a: seq<Bytes>, b: seq<Bytes>)
    ensures Merged(codec, a + b).Ok? <==> Merged(codec, a).Ok? && Merged(codec, b).Ok?
    ensures Merged(codec, a + b).Ok? ==>
      Merged(codec, a + b).value == Merged(codec, a).value + Merged(codec, b).value
    decreases |b|
  {
    if b == [] {
      assert a + b == a;
    } else {
      var init := b[..|b| - 1];
      assert (a + b)[..|a + b| - 1] == a + init;
      assert (a + b)[|a + b| - 1] == b[|b| - 1];
      MergedAppend(codec, a, init);
      if Merged(codec, a + b).Ok? {
        var x := Merged(codec, a).value;
        var y := Merged(codec, init).value;
        var last := codec.load(b[|b| - 1]).value;
        assert Merged(codec, a + b).value == (x + y) + last;
        assert x + (y + last) == (x + y) + last;
      }
    }
  }

  /** A single file merges into exactly its own pages. */
  lemma MergedSingle(codec: Codec, input: Bytes)
    ensures Merged(codec, [input]) == codec.load(input)
  {
    assert [input][..0] == [];
    match codec.load(input)
    case Err(m) =>
    case Ok(doc) => assert [] + doc == doc;
  }

  /** The pages of file k sit in the merged document, in their own order, right
      after the pages of the files before it. */
  lemma MergedPlacesFile(codec: Codec, inputs: seq<Bytes>, k: nat)
    requires k < |inputs| && Merged(codec, inputs).Ok?
    ensures codec.load(inputs[k]).Ok?
    ensures var before, doc := Merged(codec, inputs[..k]), codec.load(inputs[k]).value;
      before.Ok? && |before.value| + |doc| <= |Merged(codec, inputs).value| &&
      Merged(codec, inputs).value[|before.value|..|before.value| + |doc|] == doc
  {
    var front, here, back := inputs[..k], [inputs[k]], inputs[k + 1..];
    assert inputs == front + (here + back);
    MergedAppend(codec, front, here + back);
    MergedAppend(codec, here, back);
    MergedSingle(codec, inputs[k]);
    var before, doc, after := Merged(codec, front).value, codec.load(inputs[k]).value, Merged(codec, back).value;
    assert Merged(codec, inputs).value == before + (doc + after);
    assert (before + (doc + after))[|before|..|before| + |doc|] == doc;
  }

  /** The whole run: merge, then save. */
  function MergeRun(codec: Codec, inputs: seq<Bytes>): Result<Bytes>
  {
    match Merged(codec, inputs)
    case Err(m) => Err(m)
    case Ok(doc) => codec.save(doc)
  }

  /** The progress values of a successful run over n files: file i sets
      (i + 1) / (n + 1) * 100, then 95 before saving and 100 at the end. */
  function MergeSteps(n: nat): (r: seq<real>)
    ensures |r| == n + 3
  {
    Ramp(n, n + 1, 100.0) + [95.0, 100.0]
  }

  /** Every value is below the bound. */
  ghost predicate AllBelow(s: seq<real>, bound: real)
  {
    forall k :: 0 <= k < |s| ==> s[k] < bound
  }

  /** The per-file values rise strictly and stay below 100. */
  lemma MergeLoopBelowHundred(n: nat)
    ensures Increasing(Ramp(n, n + 1, 100.0))
    ensures AllBelow(Ramp(n, n + 1, 100.0), 100.0)
  {
    RampIncreasing(n, n + 1, 100.0);
    var r := Ramp(n, n + 1, 100.0);
    if n > 0 {
      FractionBounds(n - 1, n, n + 1, 100.0);
      assert r[n] < 100.0;
    }
  }

  /** The last per-file value, n / (n + 1) * 100, is at most 95 exactly when n <= 19. */
  lemma LastFileValue(n: nat)
    requires n > 0
    ensures Fraction(n - 1, n + 1, 100.0) <= 95.0 <==> n <= 19
  {
    QuotientAtMost(n as real, (n + 1) as real, 100.0, 95.0);
  }

  /** What the run shows when it stops early is a prefix of the full run's values. */
  lemma MergeStepsPrefixes(i: nat, n: nat)
    requires i <= n
    ensures Ramp(i, n + 1, 100.0) <= MergeSteps(n)
    ensures Ramp(n, n + 1, 100.0) + [95.0] <= MergeSteps(n)
    ensures Ramp(n, n + 1, 100.0) + [95.0] + [100.0] == MergeSteps(n)
  {
    RampPrefix(i, n, n + 1, 100.0);
  }

  /** The progress bar never moves backwards exactly when there are at most 19
      files: from 20 files on, the last per-file value n / (n + 1) * 100 is above
      the 95 that follows it. */
  lemma MergeStepsNonDecreasingIff(n: nat)
    ensures NonDecreasing(MergeSteps(n)) <==> n <= 19
  {
    MergeLoopBelowHundred(n);
    var loop := Ramp(n, n + 1, 100.0);
    var s := MergeSteps(n);
    var last := loop[n];
    assert s[n] == last && s[n + 1] == 95.0 && s[n + 2] == 100.0;
    if n > 0 {
      LastFileValue(n);
    }
    if n <= 19 {
      AppendKeepsNonDecreasing(loop, 95.0);
      AppendKeepsNonDecreasing(loop + [95.0], 100.0);
      assert s == loop + [95.0] + [100.0];
    }
  }

  // ---------------------------------------------------------------------------
  // The page

  class MergeTool {
    var files: seq<ManagedFile>
    var isProcessing: bool
    var progress: real
    var status: Status
    var result: Option<Blob>
    /** Every progress value set since the current run started. */
    ghost var shown: seq<real>

    constructor ()
      ensures files == [] && !isProcessing && progress == 0.0 && status == Blank && result == None
    {
      files := [];
      isProcessing := false;
      progress := 0.0;
      status := Blank;
      result := None;
      shown := [];
    }

    /** The merge button is offered only with two files or more, outside a run
        and before a result. */
    predicate MergeOffered()
      reads this
    {
      !isProcessing && result == None && |files| >= 2
    }

    /** The file loop: file i announces its name, sets (i + 1) / (n + 1) * 100
        and adds all of its pages; the first file that does not load ends it. */
    method CombineFiles(codec: Codec) returns (r: Result<Document>)
      requires shown == [0.0] && progress == 0.0
      modifies this`progress, this`status, this`shown
      ensures r == Merged(codec, Inputs(files))
      ensures 2 <= |shown| + 1 <= |files| + 2 && shown == Ramp(|shown| - 1, |files| + 1, 100.0)
      ensures progress == shown[|shown| - 1]
      ensures r.Ok? ==> |shown| == |files| + 1
    {
      var n := |files|;
      var inputs := Inputs(files);
      var mergedPdf: Document := [];
      var i := 0;
      while i < n
        invariant 0 <= i <= n
        invariant Merged(codec, inputs[..i]) == Ok(mergedPdf)
        invariant shown == Ramp(i, n + 1, 100.0) && progress == shown[i]
      {
        status := ProcessingFile(files[i].file.name);
        progress := Fraction(i, n + 1, 100.0);
        shown := shown + [progress];
        assert inputs[..i + 1][..i] == inputs[..i];
        var pdf := codec.load(files[i].file.data);
        if pdf.Err? {
          MergedPrefixFails(codec, inputs, i + 1);
          return Merged(codec, inputs);
        }
        var pages := CopyPages(pdf.value, AllIndices(|pdf.value|));
        CopyAllPages(pdf.value);
        mergedPdf := mergedPdf + pages.value;
        i := i + 1;
      }
      assert inputs[..n] == inputs;
      r := Ok(mergedPdf);
    }

    /** The run: an error notice and no run with fewer than two files; otherwise
        the saved merge, or a failure that leaves no result. */
    method HandleMerge(codec: Codec) returns (notice: Notice)
      modifies this`isProcessing, this`progress, this`status, this`result, this`shown
      ensures |files| < 2 ==> (notice == NeedTwoFiles &&
        isProcessing == old(isProcessing) && progress == old(progress) && status == old(status) &&
        result == old(result) && shown == old(shown))
      ensures |files| >= 2 ==>
        var run := MergeRun(codec, Inputs(files));
        !isProcessing &&
        shown <= MergeSteps(|files|) && |shown| > 0 && progress == shown[|shown| - 1] &&
        (run.Ok? ==> (result == Some(PdfBlob(run.value)) && shown == MergeSteps(|files|) &&
           status == Done && notice == Succeeded)) &&
        (run.Err? ==> result == None && notice == Failed)
    {
      if |files| < 2 {
        return NeedTwoFiles;
      }
      isProcessing := true;
      progress := 0.0;
      shown := [progress];
      status := Starting;
      result := None;

      var n := |files|;
      var merged := CombineFiles(codec);
      MergeStepsPrefixes(|shown| - 1, n);
      if merged.Err? {
        isProcessing := false;
        return Failed;
      }
      assert shown == Ramp(n, n + 1, 100.0);
      notice := SaveMerged(codec, merged.value);
    }

    /** The end of the run: 95, save the merged document, 100. */
    method SaveMerged(codec: Codec, doc: Document) returns (notice: Notice)
      modifies this`isProcessing, this`progress, this`status, this`result, this`shown
      ensures
        var saved := codec.save(doc);
        !isProcessing &&
        (saved.Ok? ==> (result == Some(PdfBlob(saved.value)) && shown == old(shown) + [95.0] + [100.0] &&
           progress == 100.0 && status == Done && notice == Succeeded)) &&
        (saved.Err? ==> result == old(result) && shown == old(shown) + [95.0] && progress == 95.0 && notice == Failed)
    {
      status := Finishing;
      progress := 95.0;
      shown := shown + [progress];
      var saved := codec.save(doc);
      if saved.Err? {
        isProcessing := false;
        return Failed;
      }
      result := Some(PdfBlob(saved.value));
      progress := 100.0;
      shown := shown + [progress];
      status := Done;
      isProcessing := false;
      notice := Succeeded;
    }

    function Download(): (r: Option<SaveAs>)
      reads this
      ensures r.Some? <==> result.Some?
      ensures r.Some? ==> r.value == SaveAs(result.value, "combined.pdf")
    {
      if result.Some? then Some(SaveAs(result.value, "combined.pdf")) else None
    }

    method HandleReset()
      modifies this`files, this`result, this`progress, this`status
      ensures files == [] && result == None && progress == 0.0 && status == Blank
      ensures !MergeOffered()
    {
      files := [];
      result := None;
      progress := 0.0;
      status := Blank;
    }
  }

  /** A file that fails to load fails the whole merge. */
  lemma {:induction false} MergedPrefixFails(codec: Codec, inputs: seq<Bytes>, k: nat)
    requires k <= |inputs|
    requires Merged(codec, inputs[..k]).Err?
    ensures Merged(codec, inputs).Err?
    decreases |inputs| - k
  {
    if k < |inputs| {
      var next := inputs[..k + 1];
      assert next[..|next| - 1] == inputs[..k];
      MergedPrefixFails(codec, inputs, k + 1);
    } else {
      assert inputs[..k] == inputs;
    }
  }
}

/** The Unlock tool: loads the document with encryption ignored and re-saves it.
    The password field is offered on the page but never passed to the library. A
    failure is reported as a wrong password when its text mentions "password". */
module UnlockPdf {
  import opened PdfModel
  import opened FileDropzone

  /** The notice for a failure whose rendered text is `message`. */
  function Classify(message: string): (r: Notice)
    ensures r == WrongPassword || r == Failed
  {
    if Includes(message, "password") then WrongPassword else Failed
  }

  /** The wrong-password notice is given exactly when "password" occurs somewhere
      in the message. */
  lemma ClassifyByOccurrence(message: string)
    ensures Classify(message) == WrongPassword <==> exists i :: OccursAt(message, "password", i)
    ensures Classify(message) == Failed <==> forall i :: !OccursAt(message, "password", i)
  {
    IncludesIffOccurs(message, "password");
  }

  /** The match is case-sensitive and needs the whole word: a message without a
      'w' is never taken for a password problem. */
  lemma MessageWithoutW(message: string)
    requires 'w' !in message
    ensures Classify(message) == Failed
  {
    IncludesOnlyOwnCharacters(message, "password", 'w');
  }

  /** The run: load ignoring encryption, then save. */
  function UnlockRun(codec: Codec, data: Bytes): Result<Bytes>
  {
    match codec.loadIgnoringEncryption(data)
    case Err(m) => Err(m)
    case Ok(doc) => codec.save(doc)
  }

  /** The output is the re-saved document as loaded, and the plain loader is
      never consulted: two libraries that agree on loading with encryption ignored
      and on saving agree on the run. */
  lemma UnlockIgnoresPlainLoad(c1: Codec, c2: Codec, data: Bytes)
    requires c1.loadIgnoringEncryption == c2.loadIgnoringEncryption && c1.save == c2.save
    ensures UnlockRun(c1, data) == UnlockRun(c2, data)
    ensures UnlockRun(c1, data).Ok? <==>
      c1.loadIgnoringEncryption(data).Ok? && c1.save(c1.loadIgnoringEncryption(data).value).Ok?
  {
  }

  class UnlockTool {
    var files: seq<ManagedFile>
    var isProcessing: bool
    var progress: real
    var status: Status
    var result: Option<Blob>
    var password: string
    /** Every progress value set since the current run started. */
    ghost var shown: seq<real>

    constructor ()
      ensures files == [] && !isProcessing && progress == 0.0 && status == Blank && result == None
      ensures password == ""
    {
      files := [];
      isProcessing := false;
      progress := 0.0;
      status := Blank;
      result := None;
      password := "";
      shown := [];
    }

    method HandleUnlock(codec: Codec) returns (notice: Notice)
      modifies this`isProcessing, this`progress, this`status, this`result, this`shown
      ensures files == [] ==> (notice == Silent &&
        isProcessing == old(isProcessing) && progress == old(progress) && status == old(status) &&
        result == old(result) && shown == old(shown))
      ensures files != [] ==>
        var run := UnlockRun(codec, files[0].file.data);
        !isProcessing &&
        shown <= FixedSteps && |shown| >= 2 && progress == shown[|shown| - 1] &&
        (run.Ok? ==> (result == Some(PdfBlob(run.value)) && shown == FixedSteps &&
           status == Done && notice == Succeeded)) &&
        (run.Err? ==> result == None && notice == Classify(run.message))
    {
      if |files| == 0 {
        return Silent;
      }
      notice := UnlockFile(codec, files[0].file);
    }

    /** The run on the first file. */
    method UnlockFile(codec: Codec, f: RawFile) returns (notice: Notice)
      modifies this`isProcessing, this`progress, this`status, this`result, this`shown
      ensures
        var run := UnlockRun(codec, f.data);
        !isProcessing &&
        2 <= |shown| <= 5 && shown == FixedSteps[..|shown|] && progress == FixedSteps[|shown| - 1] &&
        (run.Ok? ==> (result == Some(PdfBlob(run.value)) && |shown| == 5 &&
           status == Done && notice == Succeeded)) &&
        (run.Err? ==> result == None && notice == Classify(run.message))
    {
      isProcessing := true;
      progress := 0.0;
      shown := [progress];
      assert shown == FixedSteps[..1];
      status := LoadingPdf;
      result := None;

      progress := 30.0;
      shown := shown + [progress];
      assert shown == FixedSteps[..2];
      status := TryingToUnlock;
      var pdf := codec.loadIgnoringEncryption(f.data);
      if pdf.Err? {
        isProcessing := false;
        return Classify(pdf.message);
      }
      notice := SaveUnlocked(codec, pdf.value);
    }

    /** The second half of the run: save the document loaded with encryption ignored. */
    method SaveUnlocked(codec: Codec, doc: Document) returns (notice: Notice)
      requires shown == FixedSteps[..2]
      modifies this`isProcessing, this`progress, this`status, this`result, this`shown
      ensures
        var saved := codec.save(doc);
        !isProcessing &&
        3 <= |shown| <= 5 && shown == FixedSteps[..|shown|] && progress == FixedSteps[|shown| - 1] &&
        (saved.Ok? ==> (result == Some(PdfBlob(saved.value)) && |shown| == 5 &&
           status == Done && notice == Succeeded)) &&
        (saved.Err? ==> result == old(result) && notice == Classify(saved.message))
    {
      progress := 60.0;
      shown := shown + [progress];
      assert shown == FixedSteps[..3];
      status := RemovingProtection;
      var bytes := codec.save(doc);
      if bytes.Err? {
        isProcessing := false;
        return Classify(bytes.message);
      }
      progress := 90.0;
      shown := shown + [progress];
      assert shown == FixedSteps[..4];
      status := Finishing;
      result := Some(PdfBlob(bytes.value));
      progress := 100.0;
      shown := shown + [progress];
      assert shown == FixedSteps[..5];
      status := Done;
      isProcessing := false;
      notice := Succeeded;
    }

    function Download(): (r: Option<SaveAs>)
      reads this
      ensures r.Some? <==> result.Some?
      ensures r.Some? ==> r.value == SaveAs(result.value, "unlocked.pdf")
    {
      if result.Some? then Some(SaveAs(result.value, "unlocked.pdf")) else None
    }

    method HandleReset()
      modifies this`files, this`result, this`progress, this`status, this`password
      ensures files == [] && result == None && progress == 0.0 && status == Blank && password == ""
    {
      files := [];
      result := None;
      progress := 0.0;
      status := Blank;
      password := "";
    }
  }
}

/** The Protect tool: checks a password and its confirmation, then loads and
    re-saves the document. No encryption is applied: the library offers none, so
    the output is the document as loaded, and the success notice says so. */
module ProtectPdf {
  import opened PdfModel
  import opened FileDropzone

  /** The first problem with the typed password, checked in the page's order:
      missing, different from the confirmation, shorter than four characters. */
  function PasswordProblem(password: string, confirmation: string): (r: Option<Notice>)
    ensures r == Some(NeedPassword) <==> password == ""
    ensures r == Some(PasswordMismatch) <==> password != "" && password != confirmation
    ensures r == Some(PasswordTooShort) <==> password != "" && password == confirmation && |password| < 4
    ensures r.Some? ==> r.value in {NeedPassword, PasswordMismatch, PasswordTooShort}
  {
    if password == "" then Some(NeedPassword)
    else if password != confirmation then Some(PasswordMismatch)
    else if |password| < 4 then Some(PasswordTooShort)
    else None
  }

  /** A run starts exactly for a password of at least four characters typed the
      same way twice. */
  lemma RunStartsIff(password: string, confirmation: string)
    ensures PasswordProblem(password, confirmation) == None <==> password == confirmation && |password| >= 4
  {
  }

  /** Only the first failing check is reported: a short password that does not
      match its confirmation is reported as a mismatch, and an empty one as
      missing whatever the confirmation holds. */
  lemma FirstProblemWins(confirmation: string)
    ensures PasswordProblem("abc", "abd") == Some(PasswordMismatch)
    ensures PasswordProblem("", confirmation) == Some(NeedPassword)
    ensures PasswordProblem("abc", "abc") == Some(PasswordTooShort)
    ensures PasswordProblem("abcd", "abcd") == None
  {
  }

  /** The run: load, then save the loaded document unchanged. */
  function ProtectRun(codec: Codec, data: Bytes): Result<Bytes>
  {
    match codec.load(data)
    case Err(m) => Err(m)
    case Ok(doc) => codec.save(doc)
  }

  /** The output is the loaded document re-saved with the plain save: two libraries
      that agree on loading and on the plain save agree on the run, however they
      differ in saving with object streams or in anything else. */
  lemma ProtectRunIsPlainResave(c1: Codec, c2: Codec, data: Bytes)
    requires c1.load == c2.load && c1.save == c2.save
    ensures ProtectRun(c1, data) == ProtectRun(c2, data)
    ensures ProtectRun(c1, data).Ok? <==> c1.load(data).Ok? && c1.save(c1.load(data).value).Ok?
  {
  }

  class ProtectTool {
    var files: seq<ManagedFile>
    var isProcessing: bool
    var progress: real
    var status: Status
    var result: Option<Blob>
    var password: string
    var confirmPassword: string
    /** Every progress value set since the current run started. */
    ghost var shown: seq<real>

    constructor ()
      ensures files == [] && !isProcessing && progress == 0.0 && status == Blank && result == None
      ensures password == "" && confirmPassword == ""
    {
      files := [];
      isProcessing := false;
      progress := 0.0;
      status := Blank;
      result := None;
      password := "";
      confirmPassword := "";
      shown := [];
    }

    method HandleProtect(codec: Codec) returns (notice: Notice)
      modifies this`isProcessing, this`progress, this`status, this`result, this`shown
      ensures files == [] || PasswordProblem(password, confirmPassword).Some? ==> (
        notice == (if files == [] then Silent else PasswordProblem(password, confirmPassword).value) &&
        isProcessing == old(isProcessing) && progress == old(progress) && status == old(status) &&
        result == old(result) && shown == old(shown))
      ensures files != [] && PasswordProblem(password, confirmPassword) == None ==>
        var run := ProtectRun(codec, files[0].file.data);
        !isProcessing &&
        shown <= FixedSteps && |shown| >= 2 && progress == shown[|shown| - 1] &&
        (run.Ok? ==> (result == Some(PdfBlob(run.value)) && shown == FixedSteps &&
           status == Done && notice == ProtectedWithoutEncryption)) &&
        (run.Err? ==> result == None && notice == Failed)
    {
      if |files| == 0 {
        return Silent;
      }
      var problem := PasswordProblem(password, confirmPassword);
      if problem.Some? {
        return problem.value;
      }
      notice := ProtectFile(codec, files[0].file);
    }

    /** The run on the first file, once the password has passed its checks. */
    method ProtectFile(codec: Codec, f: RawFile) returns (notice: Notice)
      modifies this`isProcessing, this`progress, this`status, this`result, this`shown
      ensures
        var run := ProtectRun(codec, f.data);
        !isProcessing &&
        2 <= |shown| <= 5 && shown == FixedSteps[..|shown|] && progress == FixedSteps[|shown| - 1] &&
        (run.Ok? ==> (result == Some(PdfBlob(run.value)) && |shown| == 5 &&
           status == Done && notice == ProtectedWithoutEncryption)) &&
        (run.Err? ==> result == None && notice == Failed)
    {
      isProcessing := true;
      progress := 0.0;
      shown := [progress];
      assert shown == FixedSteps[..1];
      status := LoadingPdf;
      result := None;

      progress := 30.0;
      shown := shown + [progress];
      assert shown == FixedSteps[..2];
      status := ApplyingProtection;
      var pdf := codec.load(f.data);
      if pdf.Err? {
        isProcessing := false;
        return Failed;
      }
      notice := SaveProtected(codec, pdf.value);
    }

    /** The second half of the run: save the loaded document as it is. */
    method SaveProtected(codec: Codec, doc: Document) returns (notice: Notice)
      requires shown == FixedSteps[..2]
      modifies this`isProcessing, this`progress, this`status, this`result, this`shown
      ensures
        var saved := codec.save(doc);
        !isProcessing &&
        3 <= |shown| <= 5 && shown == FixedSteps[..|shown|] && progress == FixedSteps[|shown| - 1] &&
        (saved.Ok? ==> (result == Some(PdfBlob(saved.value)) && |shown| == 5 &&
           status == Done && notice == ProtectedWithoutEncryption)) &&
        (saved.Err? ==> result == old(result) && notice == Failed)
    {
      progress := 60.0;
      shown := shown + [progress];
      assert shown == FixedSteps[..3];
      status := Encrypting;
      var bytes := codec.save(doc);
      if bytes.Err? {
        isProcessing := false;
        return Failed;
      }
      progress := 90.0;
      shown := shown + [progress];
      assert shown == FixedSteps[..4];
      status := Finishing;
      result := Some(PdfBlob(bytes.value));
      progress := 100.0;
      shown := shown + [progress];
      assert shown == FixedSteps[..5];
      status := Done;
      isProcessing := false;
      notice := ProtectedWithoutEncryption;
    }

    function Download(): (r: Option<SaveAs>)
      reads this
      ensures r.Some? <==> result.Some?
      ensures r.Some? ==> r.value == SaveAs(result.value, "protected.pdf")
    {
      if result.Some? then Some(SaveAs(result.value, "protected.pdf")) else None
    }

    /** Clears the run and both password fields, so no run can start until a
        password is typed again. */
    method HandleReset()
      modifies this`files, this`result, this`progress, this`status, this`password, this`confirmPassword
      ensures files == [] && result == None && progress == 0.0 && status == Blank
      ensures password == "" && confirmPassword == ""
      ensures PasswordProblem(password, confirmPassword) == Some(NeedPassword)
    {
      files := [];
      result := None;
      progress := 0.0;
      status := Blank;
      password := "";
      confirmPassword := "";
    }
  }
}

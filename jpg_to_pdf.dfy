/** The image-to-PDF tool: every JPEG or PNG file becomes one page of a new
    document, sized to the image and covered by it; files of any other type are
    skipped. */
module JpgToPdf {
  import opened PdfModel
  import opened FileDropzone

  /** How a file's declared type is embedded. */
  datatype ImageKind = Jpeg | Png | Unsupported

  function KindOf(mimeType: string): (k: ImageKind)
    ensures k == Jpeg <==> mimeType == "image/jpeg" || mimeType == "image/jpg"
    ensures k == Png <==> mimeType == "image/png"
  {
    if mimeType == "image/jpeg" || mimeType == "image/jpg" then Jpeg
    else if mimeType == "image/png" then Png
    else Unsupported
  }

  /** The page an embedded image gets: the image's own size, with the image drawn
      at the origin at full size. */
  function ImagePage(image: Image): (p: Page)
    ensures p.width == image.width && p.height == image.height && p.angle == 0
    ensures p.content == Picture(image, 0, 0, p.width, p.height)
  {
    Page(0, image.width, image.height, Picture(image, 0, 0, image.width, image.height))
  }

  /** The image a file embeds as; only called for a supported type. */
  function Embedded(codec: Codec, f: RawFile): Result<Image>
    requires KindOf(f.mimeType) != Unsupported
  {
    if KindOf(f.mimeType) == Jpeg then codec.embedJpg(f.data) else codec.embedPng(f.data)
  }

  /** The pages of the converted document, one per supported file in list order;
      the first image that does not embed ends the run. */
  function Converted(codec: Codec, files: seq<RawFile>): Result<Document>
    decreases |files|
  {
    if files == [] then Ok([])
    else
      var f := files[|files| - 1];
      match Converted(codec, files[..|files| - 1])
      case Err(m) => Err(m)
      case Ok(pages) =>
        if KindOf(f.mimeType) == Unsupported then Ok(pages)
        else
          match Embedded(codec, f)
          case Err(m) => Err(m)
          case Ok(image) => Ok(pages + [ImagePage(image)])
  }

  /** One more file after a successful prefix: skipped, added, or the failure. */
  lemma ConvertedExtends(codec: Codec, files: seq<RawFile>, i: nat, pages: Document)
    requires i < |files| && Converted(codec, files[..i]) == Ok(pages)
    ensures !Supported(files[i]) ==> Converted(codec, files[..i + 1]) == Ok(pages)
    ensures Supported(files[i]) && Embedded(codec, files[i]).Err? ==>
      Converted(codec, files[..i + 1]) == Err(Embedded(codec, files[i]).message)
    ensures Supported(files[i]) && Embedded(codec, files[i]).Ok? ==>
      Converted(codec, files[..i + 1]) == Ok(pages + [ImagePage(Embedded(codec, files[i]).value)])
  {
    assert files[..i + 1][..i] == files[..i];
  }

  /** One step of the image loop: the next file's image appended as a page, the
      file skipped when its type has no embedder, or the embedding failure. */
  method AddImage(codec: Codec, files: seq<RawFile>, i: nat, pdf: Document) returns (r: Result<Document>)
    requires i < |files| && Converted(codec, files[..i]) == Ok(pdf)
    ensures r == Converted(codec, files[..i + 1])
  {
    ConvertedExtends(codec, files, i, pdf);
    var f := files[i];
    var kind := KindOf(f.mimeType);
    var image: Result<Image>;
    if kind == Jpeg {
      image := codec.embedJpg(f.data);
    } else if kind == Png {
      image := codec.embedPng(f.data);
    } else {
      return Ok(pdf);
    }
    if image.Err? {
      return Err(image.message);
    }
    r := Ok(pdf + [ImagePage(image.value)]);
  }

  predicate Supported(f: RawFile)
  {
    KindOf(f.mimeType) != Unsupported
  }

  /** The number of files of a supported type. */
  function SupportedCount(files: seq<RawFile>): nat
    decreases |files|
  {
    if files == [] then 0
    else SupportedCount(files[..|files| - 1]) + (if Supported(files[|files| - 1]) then 1 else 0)
  }

  /** Every supported file embeds. */
  predicate AllEmbed(codec: Codec, files: seq<RawFile>)
  {
    forall k :: 0 <= k < |files| && Supported(files[k]) ==> Embedded(codec, files[k]).Ok?
  }

  /** The conversion succeeds exactly when every supported image embeds, and then
      it has one page per supported file. */
  lemma {:induction false} ConvertedOkIffAllEmbed(codec: Codec, files: seq<RawFile>)
    ensures Converted(codec, files).Ok? <==> AllEmbed(codec, files)
    ensures Converted(codec, files).Ok? ==> |Converted(codec, files).value| == SupportedCount(files)
    decreases |files|
  {
    if files != [] {
      var init := files[..|files| - 1];
      ConvertedOkIffAllEmbed(codec, init);
      assert forall k :: 0 <= k < |init| ==> init[k] == files[k];
      if !AllEmbed(codec, init) {
        var k :| 0 <= k < |init| && Supported(init[k]) && !Embedded(codec, init[k]).Ok?;
        assert Supported(files[k]) && !Embedded(codec, files[k]).Ok?;
      }
    }
  }

  /** Converting a list converts its two halves and concatenates the pages. */
  lemma {:induction false} ConvertedAppend(codec: Codec, a: seq<RawFile>, b: seq<RawFile>)
    ensures Converted(codec, a + b).Ok? <==> Converted(codec, a).Ok? && Converted(codec, b).Ok?
    ensures Converted(codec, a + b).Ok? ==>
      Converted(codec, a + b).value == Converted(codec, a).value + Converted(codec, b).value
    decreases |b|
  {
    if b == [] {
      assert a + b == a;
    } else {
      var init := b[..|b| - 1];
      assert (a + b)[..|a + b| - 1] == a + init;
      assert (a + b)[|a + b| - 1] == b[|b| - 1];
      ConvertedAppend(codec, a, init);
      if Converted(codec, a + b).Ok? && Supported(b[|b| - 1]) {
        var x := Converted(codec, a).value;
        var y := Converted(codec, init).value;
        var page := ImagePage(Embedded(codec, b[|b| - 1]).value);
        assert x + (y + [page]) == (x + y) + [page];
      }
    }
  }

  /** One file alone: a supported image gives exactly its page, any other type
      gives no page at all. */
  lemma ConvertedSingle(codec: Codec, f: RawFile)
    ensures !Supported(f) ==> Converted(codec, [f]) == Ok([])
    ensures Supported(f) && Embedded(codec, f).Ok? ==> Converted(codec, [f]) == Ok([ImagePage(Embedded(codec, f).value)])
    ensures Supported(f) && Embedded(codec, f).Err? ==> Converted(codec, [f]).Err?
  {
    assert [f][..0] == [];
    if Supported(f) && Embedded(codec, f).Ok? {
      var page := ImagePage(Embedded(codec, f).value);
      assert [] + [page] == [page];
    }
  }

  /** A batch with no supported file still succeeds, with no page. */
  lemma {:induction false} UnsupportedOnly(codec: Codec, files: seq<RawFile>)
    requires forall k :: 0 <= k < |files| ==> !Supported(files[k])
    ensures Converted(codec, files) == Ok([])
    decreases |files|
  {
    if files != [] {
      UnsupportedOnly(codec, files[..|files| - 1]);
    }
  }

  /** The whole run: convert, then save. */
  function ConvertRun(codec: Codec, files: seq<RawFile>): Result<Bytes>
  {
    match Converted(codec, files)
    case Err(m) => Err(m)
    case Ok(doc) => codec.save(doc)
  }

  /** The raw files of the managed list, in order. */
  function RawFiles(files: seq<ManagedFile>): (r: seq<RawFile>)
    ensures |r| == |files| && forall k :: 0 <= k < |files| ==> r[k] == files[k].file
  {
    seq(|files|, k requires 0 <= k < |files| => files[k].file)
  }

  /** The progress values of a successful run over n files: file i sets
      (i + 1) / (n + 1) * 90, then 95 before saving and 100 at the end. */
  function ConvertSteps(n: nat): (r: seq<real>)
    ensures |r| == n + 3
  {
    Ramp(n, n + 1, 90.0) + [95.0, 100.0]
  }

  /** Unlike the merge, the image run's progress rises strictly for any number of
      files: the per-file values never reach 90. */
  lemma ConvertStepsIncreasing(n: nat)
    ensures Increasing(ConvertSteps(n))
  {
    var loop := Ramp(n, n + 1, 90.0);
    RampIncreasing(n, n + 1, 90.0);
    assert loop[n] <= 90.0;
    AppendKeepsIncreasing(loop, 95.0);
    AppendKeepsIncreasing(loop + [95.0], 100.0);
    assert ConvertSteps(n) == loop + [95.0] + [100.0];
  }

  lemma ConvertStepsPrefixes(i: nat, n: nat)
    requires i <= n
    ensures Ramp(i, n + 1, 90.0) <= ConvertSteps(n)
    ensures Ramp(n, n + 1, 90.0) + [95.0] <= ConvertSteps(n)
    ensures Ramp(n, n + 1, 90.0) + [95.0] + [100.0] == ConvertSteps(n)
  {
    RampPrefix(i, n, n + 1, 90.0);
  }

  // ---------------------------------------------------------------------------
  // The page

  class ConvertTool {
    var files: seq<ManagedFile>
    var isProcessing: bool
    var progress: real
    var status: Status
    var result: Option<Blob>
    /** Every progress value set since the current run started. */
    ghost var shown: seq<real>

    constructor ()
      ensures files == [] && !isProcessing && progress == 0.0 && status == Blank && result == None
    {
      files := [];
      isProcessing := false;
      progress := 0.0;
      status := Blank;
      result := None;
      shown := [];
    }

    /** The status and progress shown before file i of n is read. */
    method Tick(i: nat, n: nat)
      requires i < n && shown == Ramp(i, n + 1, 90.0)
      modifies this`progress, this`status, this`shown
      ensures status == ProcessingImage(i + 1, n)
      ensures shown == Ramp(i + 1, n + 1, 90.0) && progress == shown[i + 1]
    {
      status := ProcessingImage(i + 1, n);
      progress := Fraction(i, n + 1, 90.0);
      shown := shown + [progress];
    }

    /** The image loop: image i announces "i + 1 of n", sets (i + 1) / (n + 1) * 90
        and, for a supported type, adds the image's page. */
    method AddImagePages(codec: Codec, raw: seq<RawFile>) returns (r: Result<Document>)
      requires shown == [0.0] && progress == 0.0
      modifies this`progress, this`status, this`shown
      ensures r == Converted(codec, raw)
      ensures 2 <= |shown| + 1 <= |raw| + 2 && shown == Ramp(|shown| - 1, |raw| + 1, 90.0)
      ensures progress == shown[|shown| - 1]
      ensures r.Ok? ==> |shown| == |raw| + 1
    {
      var n := |raw|;
      var pdf: Document := [];
      var i := 0;
      while i < n
        invariant 0 <= i <= n
        invariant Converted(codec, raw[..i]) == Ok(pdf)
        invariant shown == Ramp(i, n + 1, 90.0) && progress == shown[i]
      {
        Tick(i, n);
        var next := AddImage(codec, raw, i, pdf);
        if next.Err? {
          ConvertedPrefixFails(codec, raw, i + 1);
          r := Converted(codec, raw);
          assert r.Err? && |shown| - 1 == i + 1;
          return;
        }
        pdf := next.value;
        i := i + 1;
      }
      assert raw[..n] == raw;
      assert |shown| - 1 == n;
      r := Ok(pdf);
    }

    /** The run: nothing without files; otherwise the saved document, or a
        failure that leaves no result. */
    method HandleConvert(codec: Codec) returns (notice: Notice)
      modifies this`isProcessing, this`progress, this`status, this`result, this`shown
      ensures files == [] ==> (notice == Silent &&
        isProcessing == old(isProcessing) && progress == old(progress) && status == old(status) &&
        result == old(result) && shown == old(shown))
      ensures files != [] ==>
        var run := ConvertRun(codec, RawFiles(files));
        !isProcessing &&
        shown <= ConvertSteps(|files|) && |shown| > 0 && progress == shown[|shown| - 1] &&
        (run.Ok? ==> (result == Some(PdfBlob(run.value)) && shown == ConvertSteps(|files|) &&
           status == Done && notice == Succeeded)) &&
        (run.Err? ==> result == None && notice == Failed)
    {
      if |files| == 0 {
        return Silent;
      }
      isProcessing := true;
      progress := 0.0;
      shown := [progress];
      status := CreatingPdf;
      result := None;

      var n := |files|;
      var pdf := AddImagePages(codec, RawFiles(files));
      ConvertStepsPrefixes(|shown| - 1, n);
      if pdf.Err? {
        isProcessing := false;
        return Failed;
      }
      assert shown == Ramp(n, n + 1, 90.0);
      ghost var before := shown;
      notice := SaveConverted(codec, pdf.value);
      assert before + [95.0] <= ConvertSteps(n);
    }

    /** The end of the run: 95, save the new document, 100. */
    method SaveConverted(codec: Codec, doc: Document) returns (notice: Notice)
      modifies this`isProcessing, this`progress, this`status, this`result, this`shown
      ensures
        var saved := codec.save(doc);
        !isProcessing &&
        (saved.Ok? ==> (result == Some(PdfBlob(saved.value)) && shown == old(shown) + [95.0] + [100.0] &&
           progress == 100.0 && status == Done && notice == Succeeded)) &&
        (saved.Err? ==> result == old(result) && shown == old(shown) + [95.0] && progress == 95.0 && notice == Failed)
    {
      status := Finishing;
      progress := 95.0;
      shown := shown + [progress];
      var saved := codec.save(doc);
      if saved.Err? {
        isProcessing := false;
        return Failed;
      }
      result := Some(PdfBlob(saved.value));
      progress := 100.0;
      shown := shown + [progress];
      status := Done;
      isProcessing := false;
      notice := Succeeded;
    }

    function Download(): (r: Option<SaveAs>)
      reads this
      ensures r.Some? <==> result.Some?
      ensures r.Some? ==> r.value == SaveAs(result.value, "images.pdf")
    {
      if result.Some? then Some(SaveAs(result.value, "images.pdf")) else None
    }

    method HandleReset()
      modifies this`files, this`result, this`progress, this`status
      ensures files == [] && result == None && progress == 0.0 && status == Blank
    {
      files := [];
      result := None;
      progress := 0.0;
      status := Blank;
    }
  }

  /** An image that fails to embed fails the whole run. */
  lemma {:induction false} ConvertedPrefixFails(codec: Codec, files: seq<RawFile>, k: nat)
    requires k <= |files|
    requires Converted(codec, files[..k]).Err?
    ensures Converted(codec, files).Err?
    decreases |files| - k
  {
    if k < |files| {
      var next := files[..k + 1];
      assert next[..|next| - 1] == files[..k];
      ConvertedPrefixFails(codec, files, k + 1);
    } else {
      assert files[..k] == files;
    }
  }
}

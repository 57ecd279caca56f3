/** The Compress tool: loads the document and re-saves it with object streams,
    recording the input and output sizes and showing the reduction as a rounded
    percentage. The quality slider is kept in the page's state but the run never
    reads it. */
module CompressPdf {
  import opened PdfModel
  import opened FileDropzone

  /** The slider's values: 10 to 100 in steps of 10, starting at 70. */
  const DefaultQuality: nat := 70

  predicate QualityLevel(q: nat)
  {
    10 <= q <= 100 && q % 10 == 0
  }

  lemma DefaultQualityIsLevel()
    ensures QualityLevel(DefaultQuality)
    ensures forall q: nat :: QualityLevel(q) ==> q / 10 in {1, 2, 3, 4, 5, 6, 7, 8, 9, 10}
  {
  }

  /** `Math.round((1 - compressed / original) * 100)` when original > 0, else 0.
      Math.round rounds halves up, so this is floor(100 (o - c) / o + 1/2),
      computed exactly on integers. */
  function CompressionPercent(original: nat, compressed: nat): int
  {
    if original > 0 then (200 * (original - compressed) + original) / (2 * original) else 0
  }

  /** The percentage is the reduction 100 (o - c) / o rounded to the nearest
      integer, halves rounded up. */
  lemma CompressionPercentRounds(original: nat, compressed: nat)
    requires original > 0
    ensures var r, x := CompressionPercent(original, compressed) as real,
                        100.0 * (original - compressed) as real / original as real;
      r - 0.5 <= x < r + 0.5
  {
    var o, c: int := original, compressed;
    var n: int := 200 * (o - c) + o;
    DivBounds(n, 2 * o);
    QuotientBetween(n, 2 * o, n / (2 * o));
    HalfShift(o, c);
  }

  lemma DivBounds(n: int, d: int)
    requires d > 0
    ensures d * (n / d) <= n < d * (n / d + 1)
  {
    var q, m := n / d, n % d;
    assert n == d * q + m && 0 <= m < d;
    assert d * (q + 1) == d * q + d;
  }

  lemma QuotientBetween(n: int, d: int, r: int)
    requires d > 0 && d * r <= n < d * (r + 1)
    ensures r as real <= n as real / d as real < (r + 1) as real
  {
    var q := n as real / d as real;
    assert q * d as real == n as real;
  }

  /** Adding one half to 100 (o - c) / o gives (200 (o - c) + o) / (2 o). */
  lemma HalfShift(o: int, c: int)
    requires o > 0
    ensures 100.0 * (o - c) as real / o as real + 0.5 == (200 * (o - c) + o) as real / (2 * o) as real
  {
    var or := o as real;
    var a := (o - c) as real;
    var x := 100.0 * a / or;
    assert x * or == 100.0 * a;
    var y := (200 * (o - c) + o) as real / (2 * o) as real;
    assert (2 * o) as real == 2.0 * or;
    assert (200 * (o - c) + o) as real == 200.0 * a + or;
    assert y * (2.0 * or) == 200.0 * a + or;
    var z := x + 0.5;
    assert z * (2.0 * or) == 2.0 * (x * or) + or;
    Cancel(z, y, 2.0 * or);
  }

  lemma Cancel(a: real, b: real, k: real)
    requires k > 0.0 && a * k == b * k
    ensures a == b
  {
    assert (a - b) * k == 0.0;
  }

  /** Nothing removes more than the whole file. */
  lemma CompressionPercentAtMostHundred(original: nat, compressed: nat)
    ensures CompressionPercent(original, compressed) <= 100
  {
    if original > 0 {
      var o, c: int := original, compressed;
      QuotientBelow(200 * (o - c) + o, 2 * o, 101);
    }
  }

  lemma QuotientBelow(n: int, d: int, b: int)
    requires d > 0 && n < d * b
    ensures n / d < b
  {
    var q := n / d;
    DivBounds(n, d);
    assert d * (b - q) == d * b - d * q;
    assert d * (b - q) > 0;
  }

  /** Equal sizes show 0. */
  lemma CompressionPercentUnchanged(size: nat)
    ensures CompressionPercent(size, size) == 0
  {
  }

  /** The percentage is positive exactly when the output is smaller by at least
      half a percent of the input, and negative, since it is not clamped, exactly
      when the output is larger by more than half a percent. */
  lemma CompressionPercentSign(original: nat, compressed: nat)
    requires original > 0
    ensures CompressionPercent(original, compressed) > 0 <==> 200 * (original - compressed) >= original
    ensures CompressionPercent(original, compressed) < 0 <==> 200 * (compressed - original) > original
  {
    var o, c := original, compressed;
    var n := 200 * (o - c) + o;
    var r := CompressionPercent(o, c);
    assert 2 * o * r <= n < 2 * o * (r + 1);
    if r > 0 {
      assert 2 * o * r >= 2 * o;
    }
    if n >= 2 * o {
      assert 2 * o * (r + 1) > 2 * o;
    }
    if r < 0 {
      assert 2 * o * (r + 1) <= 0;
    }
    if n < 0 {
      assert 2 * o * r < 0;
    }
  }

  /** The run: load, then save with object streams. */
  function CompressRun(codec: Codec, data: Bytes): Result<Bytes>
  {
    match codec.load(data)
    case Err(m) => Err(m)
    case Ok(doc) => codec.saveWithObjectStreams(doc)
  }

  class CompressTool {
    var files: seq<ManagedFile>
    var isProcessing: bool
    var progress: real
    var status: Status
    var result: Option<Blob>
    var quality: nat
    var originalSize: nat
    var compressedSize: nat
    /** Every progress value set since the current run started. */
    ghost var shown: seq<real>

    /** The slider only ever holds one of its levels. */
    predicate Valid()
      reads this
    {
      QualityLevel(quality)
    }

    constructor ()
      ensures files == [] && !isProcessing && progress == 0.0 && status == Blank && result == None
      ensures quality == DefaultQuality && originalSize == 0 && compressedSize == 0
      ensures Valid()
    {
      files := [];
      isProcessing := false;
      progress := 0.0;
      status := Blank;
      result := None;
      quality := DefaultQuality;
      originalSize := 0;
      compressedSize := 0;
      shown := [];
      DefaultQualityIsLevel();
    }

    /** The slider only offers its own levels. */
    method SetQuality(q: nat)
      requires QualityLevel(q)
      modifies this`quality
      ensures quality == q && Valid()
    {
      quality := q;
    }

    function Percent(): int
      reads this
    {
      CompressionPercent(originalSize, compressedSize)
    }

    /** The reduction badge is shown only for a positive percentage. */
    predicate ShowsReduction()
      reads this
    {
      Percent() > 0
    }

    method HandleCompress(codec: Codec) returns (notice: Notice)
      requires Valid()
      modifies this`isProcessing, this`progress, this`status, this`result, this`shown
      modifies this`originalSize, this`compressedSize
      ensures Valid() && quality == old(quality)
      ensures files == [] ==> (notice == Silent &&
        isProcessing == old(isProcessing) && progress == old(progress) && status == old(status) &&
        result == old(result) && shown == old(shown) &&
        originalSize == old(originalSize) && compressedSize == old(compressedSize))
      ensures files != [] ==>
        var run := CompressRun(codec, files[0].file.data);
        !isProcessing && originalSize == files[0].file.size &&
        shown <= FixedSteps && |shown| >= 2 && progress == shown[|shown| - 1] &&
        (run.Ok? ==> (result == Some(PdfBlob(run.value)) && compressedSize == |run.value| &&
           shown == FixedSteps && status == Done && notice == Succeeded)) &&
        (run.Err? ==> result == None && compressedSize == old(compressedSize) && notice == Failed)
    {
      if |files| == 0 {
        return Silent;
      }
      notice := CompressFile(codec, files[0].file);
    }

    /** The run on the first file. */
    method CompressFile(codec: Codec, f: RawFile) returns (notice: Notice)
      modifies this`isProcessing, this`progress, this`status, this`result, this`shown
      modifies this`originalSize, this`compressedSize
      ensures
        var run := CompressRun(codec, f.data);
        !isProcessing && originalSize == f.size &&
        2 <= |shown| <= 5 && shown == FixedSteps[..|shown|] && progress == FixedSteps[|shown| - 1] &&
        (run.Ok? ==> (result == Some(PdfBlob(run.value)) && compressedSize == |run.value| &&
           |shown| == 5 && status == Done && notice == Succeeded)) &&
        (run.Err? ==> result == None && compressedSize == old(compressedSize) && notice == Failed)
    {
      isProcessing := true;
      progress := 0.0;
      shown := [progress];
      assert shown == FixedSteps[..1];
      status := LoadingPdf;
      result := None;
      originalSize := f.size;

      progress := 30.0;
      shown := shown + [progress];
      status := Processing;
      assert shown == FixedSteps[..2];
      var pdf := codec.load(f.data);
      if pdf.Err? {
        isProcessing := false;
        return Failed;
      }
      notice := SaveCompressed(codec, pdf.value);
    }

    /** The second half of the run: save the loaded document with object streams. */
    method SaveCompressed(codec: Codec, doc: Document) returns (notice: Notice)
      requires shown == FixedSteps[..2]
      modifies this`isProcessing, this`progress, this`status, this`result, this`shown, this`compressedSize
      ensures
        var saved := codec.saveWithObjectStreams(doc);
        !isProcessing &&
        3 <= |shown| <= 5 && shown == FixedSteps[..|shown|] && progress == FixedSteps[|shown| - 1] &&
        (saved.Ok? ==> (result == Some(PdfBlob(saved.value)) && compressedSize == |saved.value| &&
           |shown| == 5 && status == Done && notice == Succeeded)) &&
        (saved.Err? ==> result == old(result) && compressedSize == old(compressedSize) && notice == Failed)
    {
      progress := 60.0;
      shown := shown + [progress];
      status := Optimizing;
      assert shown == FixedSteps[..3];
      var compressedBytes := codec.saveWithObjectStreams(doc);
      if compressedBytes.Err? {
        isProcessing := false;
        return Failed;
      }
      progress := 90.0;
      shown := shown + [progress];
      status := Finishing;
      assert shown == FixedSteps[..4];
      result := Some(PdfBlob(compressedBytes.value));
      compressedSize := |compressedBytes.value|;
      progress := 100.0;
      shown := shown + [progress];
      status := Done;
      assert shown == FixedSteps[..5];
      isProcessing := false;
      notice := Succeeded;
    }

    function Download(): (r: Option<SaveAs>)
      reads this
      ensures r.Some? <==> result.Some?
      ensures r.Some? ==> r.value == SaveAs(result.value, "compressed.pdf")
    {
      if result.Some? then Some(SaveAs(result.value, "compressed.pdf")) else None
    }

    /** Clears the run and both sizes, so the percentage reads 0 again. */
    method HandleReset()
      requires Valid()
      modifies this`files, this`result, this`progress, this`status, this`originalSize, this`compressedSize
      ensures files == [] && result == None && progress == 0.0 && status == Blank
      ensures originalSize == 0 && compressedSize == 0 && Percent() == 0 && !ShowsReduction()
      ensures Valid() && quality == old(quality)
    {
      files := [];
      result := None;
      progress := 0.0;
      status := Blank;
      originalSize := 0;
      compressedSize := 0;
    }
  }
}

/** The Rotate tool: one PDF, a page model with a selection flag and a pending
    rotation per page, and a run that adds each pending rotation to the page's
    own angle and saves the document as rotated.pdf. */
module RotatePdf {
  import opened PdfModel
  import opened FileDropzone

  /** A page's descriptor: its 1-based number, the rotation the user asked for
      (degrees) and whether the rotate buttons act on it. */
  datatype PageRotation = PageRotation(pageNumber: nat, rotation: int, selected: bool)

  datatype Direction = Clockwise | CounterClockwise

  function Delta(direction: Direction): int
  {
    if direction == Clockwise then 90 else -90
  }

  /** One quarter turn of an angle, kept in [0, 360) the way the page computes it. */
  function Turn(angle: int, direction: Direction): int
  {
    JsRem(angle + Delta(direction) + 360, 360)
  }

  /** The rotations the page model can hold. */
  predicate IsQuarter(angle: int)
  {
    angle == 0 || angle == 90 || angle == 180 || angle == 270
  }

  /** Page numbers 1..N in order: the shape every derived page model has. */
  predicate Numbered(pages: seq<PageRotation>)
  {
    forall k :: 0 <= k < |pages| ==> pages[k].pageNumber == k + 1
  }

  predicate QuarterRotations(pages: seq<PageRotation>)
  {
    forall k :: 0 <= k < |pages| ==> IsQuarter(pages[k].rotation)
  }

  // ---------------------------------------------------------------------------
  // The page model

  /** The model derived from a freshly loaded document of `count` pages. */
  function FreshPages(count: nat): (r: seq<PageRotation>)
    ensures |r| == count && Numbered(r) && QuarterRotations(r)
    ensures forall k :: 0 <= k < count ==> r[k].selected && r[k].rotation == 0
  {
    seq(count, k requires 0 <= k < count => PageRotation(k + 1, 0, true))
  }

  function Toggled(pages: seq<PageRotation>, pageNumber: int): (r: seq<PageRotation>)
    ensures |r| == |pages|
  {
    seq(|pages|, k requires 0 <= k < |pages| =>
      if pages[k].pageNumber == pageNumber then pages[k].(selected := !pages[k].selected) else pages[k])
  }

  function Turned(pages: seq<PageRotation>, direction: Direction): (r: seq<PageRotation>)
    ensures |r| == |pages|
  {
    seq(|pages|, k requires 0 <= k < |pages| =>
      if pages[k].selected then pages[k].(rotation := Turn(pages[k].rotation, direction)) else pages[k])
  }

  function WithAllSelected(pages: seq<PageRotation>): (r: seq<PageRotation>)
    ensures |r| == |pages|
  {
    seq(|pages|, k requires 0 <= k < |pages| => pages[k].(selected := true))
  }

  function WithoutRotations(pages: seq<PageRotation>): (r: seq<PageRotation>)
    ensures |r| == |pages|
  {
    seq(|pages|, k requires 0 <= k < |pages| => pages[k].(rotation := 0))
  }

  /** Some page has a pending rotation: the apply button is offered only then. */
  predicate HasRotations(pages: seq<PageRotation>)
  {
    exists k :: 0 <= k < |pages| && pages[k].rotation != 0
  }

  /** Toggling flips the flag of the page with that number and of no other, and
      touches no number or rotation. */
  lemma ToggledFlipsOnlyThatPage(pages: seq<PageRotation>, pageNumber: int, k: nat)
    requires k < |pages|
    ensures var r := Toggled(pages, pageNumber);
      r[k].pageNumber == pages[k].pageNumber && r[k].rotation == pages[k].rotation &&
      (r[k].selected != pages[k].selected <==> pages[k].pageNumber == pageNumber)
  {
  }

  /** On a numbered model, toggling a number in 1..N changes exactly one page and
      any other number changes nothing. */
  lemma ToggledOnNumberedModel(pages: seq<PageRotation>, pageNumber: int)
    requires Numbered(pages)
    ensures 1 <= pageNumber <= |pages| ==>
      Toggled(pages, pageNumber) == pages[pageNumber - 1 := pages[pageNumber - 1].(selected := !pages[pageNumber - 1].selected)]
    ensures !(1 <= pageNumber <= |pages|) ==> Toggled(pages, pageNumber) == pages
  {
  }

  lemma ToggledTwice(pages: seq<PageRotation>, pageNumber: int)
    ensures Toggled(Toggled(pages, pageNumber), pageNumber) == pages
  {
    var r := Toggled(Toggled(pages, pageNumber), pageNumber);
    assert forall k :: 0 <= k < |pages| ==> r[k] == pages[k];
  }

  /** A turn acts on the selected pages only, and keeps every rotation a quarter. */
  lemma TurnedActsOnSelection(pages: seq<PageRotation>, direction: Direction, k: nat)
    requires k < |pages| && QuarterRotations(pages)
    ensures var r := Turned(pages, direction);
      QuarterRotations(r) &&
      r[k].pageNumber == pages[k].pageNumber && r[k].selected == pages[k].selected &&
      (pages[k].selected ==> r[k].rotation == (pages[k].rotation + Delta(direction) + 360) % 360) &&
      (!pages[k].selected ==> r[k] == pages[k])
  {
  }

  lemma TurnPreservesQuarter(angle: int, direction: Direction)
    requires IsQuarter(angle)
    ensures IsQuarter(Turn(angle, direction))
  {
  }

  /** A turn of an angle in [0, 360) as plain addition with one wrap. */
  lemma TurnWithinCircle(angle: int)
    requires 0 <= angle < 360
    ensures Turn(angle, Clockwise) == if angle < 270 then angle + 90 else angle - 270
    ensures Turn(angle, CounterClockwise) == if angle < 90 then angle + 270 else angle - 90
  {
    if angle < 270 {
      assert angle + 450 == 360 + (angle + 90);
    } else {
      assert angle + 450 == 2 * 360 + (angle - 270);
    }
    if angle < 90 {
      assert angle + 270 == 0 * 360 + (angle + 270);
    } else {
      assert angle + 270 == 360 + (angle - 90);
    }
  }

  /** Four clockwise turns give back the original angle. */
  lemma FourTurns(angle: int)
    requires 0 <= angle < 360
    ensures Turn(Turn(Turn(Turn(angle, Clockwise), Clockwise), Clockwise), Clockwise) == angle
  {
    var a1 := Turn(angle, Clockwise);
    TurnWithinCircle(angle);
    var a2 := Turn(a1, Clockwise);
    TurnWithinCircle(a1);
    var a3 := Turn(a2, Clockwise);
    TurnWithinCircle(a2);
    TurnWithinCircle(a3);
  }

  /** A counter-clockwise turn undoes a clockwise one, and the other way round. */
  lemma TurnsCancel(angle: int)
    requires 0 <= angle < 360
    ensures Turn(Turn(angle, Clockwise), CounterClockwise) == angle
    ensures Turn(Turn(angle, CounterClockwise), Clockwise) == angle
  {
    TurnWithinCircle(angle);
    TurnWithinCircle(Turn(angle, Clockwise));
    TurnWithinCircle(Turn(angle, CounterClockwise));
  }

  lemma TurnedBack(pages: seq<PageRotation>)
    requires QuarterRotations(pages)
    ensures Turned(Turned(pages, Clockwise), CounterClockwise) == pages
  {
    var once := Turned(pages, Clockwise);
    var r := Turned(once, CounterClockwise);
    forall k | 0 <= k < |pages| ensures r[k] == pages[k] {
      var p := pages[k];
      if p.selected {
        TurnsCancel(p.rotation);
        assert once[k] == p.(rotation := Turn(p.rotation, Clockwise));
        assert r[k] == once[k].(rotation := Turn(once[k].rotation, CounterClockwise));
      } else {
        assert once[k] == p;
      }
    }
  }

  lemma SelectAllKeepsRotations(pages: seq<PageRotation>)
    ensures forall k :: 0 <= k < |pages| ==>
      WithAllSelected(pages)[k].selected && WithAllSelected(pages)[k].rotation == pages[k].rotation &&
      WithAllSelected(pages)[k].pageNumber == pages[k].pageNumber
  {
  }

  lemma ResetRotationsKeepsSelection(pages: seq<PageRotation>)
    ensures !HasRotations(WithoutRotations(pages)) && QuarterRotations(WithoutRotations(pages))
    ensures forall k :: 0 <= k < |pages| ==>
      WithoutRotations(pages)[k].selected == pages[k].selected &&
      WithoutRotations(pages)[k].pageNumber == pages[k].pageNumber
  {
  }

  lemma FreshPagesHaveNoRotations(count: nat)
    ensures !HasRotations(FreshPages(count))
  {
  }

  // ---------------------------------------------------------------------------
  // Applying the rotations to the document

  /** Every page with a pending rotation exists in the document. */
  predicate Applicable(doc: Document, pages: seq<PageRotation>)
  {
    forall k :: 0 <= k < |pages| && pages[k].rotation != 0 ==> k < |doc|
  }

  /** The angle page k ends with: its own angle plus the rotation pending at the
      same position of the page model. */
  function TargetAngle(doc: Document, pages: seq<PageRotation>, k: nat): int
    requires k < |doc|
  {
    if k < |pages| then doc[k].angle + pages[k].rotation else doc[k].angle
  }

  /** The reference result of the apply loop: the document with every page's angle
      increased by its pending rotation, or an error when a pending rotation names
      a page the document does not have. */
  function ApplyRotations(doc: Document, pages: seq<PageRotation>): (r: Result<Document>)
    ensures r.Ok? <==> Applicable(doc, pages)
    ensures r.Ok? ==> |r.value| == |doc|
    ensures r.Ok? ==> forall k :: 0 <= k < |doc| ==>
      r.value[k] == doc[k].(angle := TargetAngle(doc, pages, k))
  {
    if Applicable(doc, pages) then
      Ok(seq(|doc|, k requires 0 <= k < |doc| => doc[k].(angle := TargetAngle(doc, pages, k))))
    else
      Err("page does not exist")
  }

  /** Rotation composes additively: applying two page models in turn adds both
      pending rotations to each page's angle, with no wrap-around. */
  lemma ApplyRotationsComposes(doc: Document, first: seq<PageRotation>, second: seq<PageRotation>)
    requires |first| == |doc| && |second| == |doc|
    ensures var once := ApplyRotations(doc, first);
      once.Ok? && ApplyRotations(once.value, second).Ok? &&
      forall k :: 0 <= k < |doc| ==>
        ApplyRotations(once.value, second).value[k].angle == doc[k].angle + first[k].rotation + second[k].rotation
  {
  }

  /** Pages with no pending rotation keep their angle. */
  lemma ApplyRotationsKeepsUnrotated(doc: Document, pages: seq<PageRotation>, k: nat)
    requires Applicable(doc, pages) && k < |doc|
    requires k >= |pages| || pages[k].rotation == 0
    ensures ApplyRotations(doc, pages).value[k] == doc[k]
  {
  }

  /** A model derived from the document being rotated always applies. */
  lemma DerivedModelApplies(doc: Document, pages: seq<PageRotation>)
    requires |pages| == |doc|
    ensures ApplyRotations(doc, pages).Ok?
  {
  }

  /** The whole run on the file's bytes: load, apply, save. */
  function RotateRun(codec: Codec, data: Bytes, pages: seq<PageRotation>): Result<Bytes>
  {
    match codec.load(data)
    case Err(m) => Err(m)
    case Ok(doc) =>
      match ApplyRotations(doc, pages)
      case Err(m) => Err(m)
      case Ok(rotated) => codec.save(rotated)
  }

  /** The apply loop of the rotate run, proved against ApplyRotations. */
  method AddRotations(source: Document, model: seq<PageRotation>) returns (r: Result<Document>)
    ensures r == ApplyRotations(source, model)
  {
    var doc := source;
    // each page of the model with a pending rotation gets it added to its angle
    var i := 0;
    while i < |model|
      invariant 0 <= i <= |model|
      invariant Applicable(source, model[..i])
      invariant |doc| == |source|
      invariant forall k :: 0 <= k < |doc| ==>
        doc[k] == source[k].(angle := TargetAngle(source, model[..i], k))
    {
      if model[i].rotation != 0 {
        if i >= |doc| {
          // the page object is undefined: reading its rotation throws
          assert !Applicable(source, model);
          return Err("page does not exist");
        }
        doc := doc[i := doc[i].(angle := doc[i].angle + model[i].rotation)];
      }
      assert model[..i + 1][..i] == model[..i];
      i := i + 1;
    }
    assert model[..i] == model;
    assert ApplyRotations(source, model).value == doc;
    r := Ok(doc);
  }

  /** The progress values of a successful run. */
  const RotateSteps: seq<real> := [0.0, 30.0, 70.0, 100.0]

  lemma RotateStepsIncreasing()
    ensures Increasing(RotateSteps)
  {
  }

  // ---------------------------------------------------------------------------
  // The page

  class RotateTool {
    var files: seq<ManagedFile>
    var isProcessing: bool
    var progress: real
    var status: Status
    var result: Option<Blob>
    var pages: seq<PageRotation>
    var globalRotation: int
    /** Every progress value set since the current run started. */
    ghost var shown: seq<real>

    constructor ()
      ensures files == [] && !isProcessing && progress == 0.0 && status == Blank && result == None
      ensures pages == [] && globalRotation == 0
    {
      files := [];
      isProcessing := false;
      progress := 0.0;
      status := Blank;
      result := None;
      pages := [];
      globalRotation := 0;
      shown := [];
    }

    /** The effect that runs whenever the file list changes: an empty list empties
        the model, a loaded file replaces it with fresh pages, and a file that does
        not load leaves the previous model in place. */
    method LoadPdfInfo(codec: Codec) returns (notice: Notice)
      modifies this`pages
      ensures files == [] ==> pages == [] && notice == Silent
      ensures files != [] && codec.load(files[0].file.data).Ok? ==>
        pages == FreshPages(|codec.load(files[0].file.data).value|) && notice == Silent
      ensures files != [] && codec.load(files[0].file.data).Err? ==>
        pages == old(pages) && notice == LoadFailed
    {
      if |files| == 0 {
        pages := [];
        return Silent;
      }
      var loaded := codec.load(files[0].file.data);
      if loaded.Err? {
        return LoadFailed;
      }
      pages := FreshPages(|loaded.value|);
      notice := Silent;
    }

    method TogglePage(pageNumber: int)
      modifies this`pages
      ensures pages == Toggled(old(pages), pageNumber)
    {
      pages := Toggled(pages, pageNumber);
    }

    /** The rotate buttons: selected pages turn, and the global counter turns by
        the same step whatever the selection. */
    method RotateSelected(direction: Direction)
      modifies this`pages, this`globalRotation
      ensures pages == Turned(old(pages), direction)
      ensures globalRotation == Turn(old(globalRotation), direction)
    {
      pages := Turned(pages, direction);
      globalRotation := Turn(globalRotation, direction);
    }

    method SelectAll()
      modifies this`pages
      ensures pages == WithAllSelected(old(pages))
    {
      pages := WithAllSelected(pages);
    }

    method ResetRotations()
      modifies this`pages
      ensures pages == WithoutRotations(old(pages))
    {
      pages := WithoutRotations(pages);
    }

    /** The apply button is on screen. */
    predicate ApplyOffered()
      reads this
    {
      !isProcessing && result == None && |pages| > 0 && HasRotations(pages)
    }

    method HandleRotate(codec: Codec) returns (notice: Notice)
      modifies this`isProcessing, this`progress, this`status, this`result, this`shown
      ensures old(files) == [] ==> (notice == Silent &&
        isProcessing == old(isProcessing) && progress == old(progress) && status == old(status) &&
        result == old(result) && shown == old(shown))
      ensures old(files) != [] ==>
        var run := RotateRun(codec, files[0].file.data, pages);
        !isProcessing &&
        shown <= RotateSteps && |shown| > 0 && progress == shown[|shown| - 1] &&
        (run.Ok? ==> result == Some(PdfBlob(run.value)) && shown == RotateSteps && status == Done && notice == Succeeded) &&
        (run.Err? ==> result == None && notice == Failed)
    {
      if |files| == 0 {
        return Silent;
      }
      notice := RotateFile(codec, files[0].file.data, pages);
    }

    /** The run on the first file's bytes with the page model as it stands. */
    method RotateFile(codec: Codec, data: Bytes, model: seq<PageRotation>) returns (notice: Notice)
      modifies this`isProcessing, this`progress, this`status, this`result, this`shown
      ensures
        var run := RotateRun(codec, data, model);
        !isProcessing &&
        1 <= |shown| <= 4 && shown == RotateSteps[..|shown|] && progress == RotateSteps[|shown| - 1] &&
        (run.Ok? ==> result == Some(PdfBlob(run.value)) && |shown| == 4 && status == Done && notice == Succeeded) &&
        (run.Err? ==> result == None && notice == Failed)
    {
      isProcessing := true;
      progress := 0.0;
      shown := [progress];
      assert shown == RotateSteps[..1];
      status := LoadingPdf;
      result := None;

      var loaded := codec.load(data);
      if loaded.Err? {
        isProcessing := false;
        return Failed;
      }
      progress := 30.0;
      shown := shown + [progress];
      assert shown == RotateSteps[..2];
      status := ApplyingRotations;

      var rotated := AddRotations(loaded.value, model);
      if rotated.Err? {
        isProcessing := false;
        return Failed;
      }
      var doc := rotated.value;

      progress := 70.0;
      shown := shown + [progress];
      assert shown == RotateSteps[..3];
      status := Finishing;
      var saved := codec.save(doc);
      if saved.Err? {
        isProcessing := false;
        return Failed;
      }
      result := Some(PdfBlob(saved.value));
      progress := 100.0;
      shown := shown + [progress];
      assert shown == RotateSteps[..4];
      status := Done;
      isProcessing := false;
      notice := Succeeded;
    }

    function Download(): (r: Option<SaveAs>)
      reads this
      ensures r.Some? <==> result.Some?
      ensures r.Some? ==> r.value.blob == result.value && r.value.fileName == "rotated.pdf"
    {
      if result.Some? then Some(SaveAs(result.value, "rotated.pdf")) else None
    }

    method HandleReset()
      modifies this`files, this`result, this`progress, this`status, this`pages, this`globalRotation
      ensures files == [] && result == None && progress == 0.0 && status == Blank
      ensures pages == [] && globalRotation == 0 && !HasRotations(pages)
    {
      files := [];
      result := None;
      progress := 0.0;
      status := Blank;
      pages := [];
      globalRotation := 0;
    }
  }
}

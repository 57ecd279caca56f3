/** The Split tool: one PDF and a page model of selection flags. With every page
    selected the run produces a zip archive holding one single-page document per
    page; with a strict subset selected it produces one document holding the
    selected pages in page order. */
module SplitPdf {
  import opened PdfModel
  import opened FileDropzone

  /** A page's descriptor: its 1-based number and whether it is selected. */
  datatype PagePreview = PagePreview(pageNumber: nat, selected: bool)

  /** Page numbers 1..N in order: the shape every derived page model has. */
  predicate Numbered(pages: seq<PagePreview>)
  {
    forall k :: 0 <= k < |pages| ==> pages[k].pageNumber == k + 1
  }

  // ---------------------------------------------------------------------------
  // The page model

  function FreshPreviews(count: nat): (r: seq<PagePreview>)
    ensures |r| == count && Numbered(r)
    ensures forall k :: 0 <= k < count ==> r[k].selected
  {
    seq(count, k requires 0 <= k < count => PagePreview(k + 1, true))
  }

  function Toggled(pages: seq<PagePreview>, pageNumber: int): (r: seq<PagePreview>)
    ensures |r| == |pages|
  {
    seq(|pages|, k requires 0 <= k < |pages| =>
      if pages[k].pageNumber == pageNumber then pages[k].(selected := !pages[k].selected) else pages[k])
  }

  function WithAllSelected(pages: seq<PagePreview>): (r: seq<PagePreview>)
    ensures |r| == |pages|
  {
    seq(|pages|, k requires 0 <= k < |pages| => pages[k].(selected := true))
  }

  function WithNoneSelected(pages: seq<PagePreview>): (r: seq<PagePreview>)
    ensures |r| == |pages|
  {
    seq(|pages|, k requires 0 <= k < |pages| => pages[k].(selected := false))
  }

  /** The selected descriptors, in model order. */
  function Selected(pages: seq<PagePreview>): (r: seq<PagePreview>)
    ensures |r| <= |pages|
  {
    if pages == [] then []
    else if pages[0].selected then [pages[0]] + Selected(pages[1..])
    else Selected(pages[1..])
  }

  /** On a numbered model, toggling a number in 1..N flips that page alone, and any
      other number changes nothing. */
  lemma ToggledOnNumberedModel(pages: seq<PagePreview>, pageNumber: int)
    requires Numbered(pages)
    ensures 1 <= pageNumber <= |pages| ==>
      Toggled(pages, pageNumber) == pages[pageNumber - 1 := PagePreview(pageNumber, !pages[pageNumber - 1].selected)]
    ensures !(1 <= pageNumber <= |pages|) ==> Toggled(pages, pageNumber) == pages
  {
  }

  lemma {:induction false} SelectedAll(pages: seq<PagePreview>)
    requires forall k :: 0 <= k < |pages| ==> pages[k].selected
    ensures Selected(pages) == pages
  {
    if pages != [] {
      SelectedAll(pages[1..]);
      assert pages == [pages[0]] + pages[1..];
    }
  }

  lemma {:induction false} SelectedNone(pages: seq<PagePreview>)
    requires forall k :: 0 <= k < |pages| ==> !pages[k].selected
    ensures Selected(pages) == []
  {
    if pages != [] {
      SelectedNone(pages[1..]);
    }
  }

  /** Select-all and deselect-all set every flag, keeping the numbers. */
  lemma BulkSelection(pages: seq<PagePreview>)
    ensures Selected(WithAllSelected(pages)) == WithAllSelected(pages)
    ensures Selected(WithNoneSelected(pages)) == []
    ensures forall k :: 0 <= k < |pages| ==>
      WithAllSelected(pages)[k].pageNumber == pages[k].pageNumber &&
      WithNoneSelected(pages)[k].pageNumber == pages[k].pageNumber
  {
    SelectedAll(WithAllSelected(pages));
    SelectedNone(WithNoneSelected(pages));
  }

  /** Page numbers increase strictly along the sequence. */
  predicate Ascending(pages: seq<PagePreview>)
  {
    forall i, j :: 0 <= i < j < |pages| ==> pages[i].pageNumber < pages[j].pageNumber
  }

  /** Every selected descriptor comes from the model, selected. */
  lemma {:induction false} SelectedMembers(pages: seq<PagePreview>, p: PagePreview)
    ensures p in Selected(pages) <==> p in pages && p.selected
  {
    if pages != [] {
      SelectedMembers(pages[1..], p);
      assert pages == [pages[0]] + pages[1..];
    }
  }

  /** Selection keeps model order: on a model whose numbers ascend, the selected
      pages come out in ascending page number, whatever order they were clicked in. */
  lemma {:induction false} SelectedAscending(pages: seq<PagePreview>)
    requires Ascending(pages)
    ensures Ascending(Selected(pages))
  {
    if pages != [] {
      var tail := pages[1..];
      assert Ascending(tail) by {
        forall i, j | 0 <= i < j < |tail| ensures tail[i].pageNumber < tail[j].pageNumber {
          assert tail[i] == pages[i + 1] && tail[j] == pages[j + 1];
        }
      }
      SelectedAscending(tail);
      if pages[0].selected {
        var rest := Selected(tail);
        var r := [pages[0]] + rest;
        forall j | 0 <= j < |rest| ensures pages[0].pageNumber < rest[j].pageNumber {
          SelectedMembers(tail, rest[j]);
          var m :| 0 <= m < |tail| && tail[m] == rest[j];
          assert tail[m] == pages[m + 1];
        }
        forall i, j | 0 <= i < j < |r| ensures r[i].pageNumber < r[j].pageNumber {
          assert r[j] == rest[j - 1];
          if i > 0 { assert r[i] == rest[i - 1]; }
        }
      }
    }
  }

  lemma NumberedIsAscending(pages: seq<PagePreview>)
    requires Numbered(pages)
    ensures Ascending(pages)
  {
  }

  /** The page numbers of a sequence of descriptors. */
  function Numbers(pages: seq<PagePreview>): (r: seq<int>)
    ensures |r| == |pages|
  {
    seq(|pages|, k requires 0 <= k < |pages| => pages[k].pageNumber as int)
  }

  /** A ten-page model with pages 3 and 7 deselected selects 1, 2, 4, 5, 6, 8, 9, 10. */
  lemma TenPagesWithoutThreeAndSeven()
    ensures Numbers(Selected(Toggled(Toggled(FreshPreviews(10), 3), 7))) == [1, 2, 4, 5, 6, 8, 9, 10]
  {
    var front := [PagePreview(1, true), PagePreview(2, true), PagePreview(3, false), PagePreview(4, true),
                  PagePreview(5, true)];
    var back := [PagePreview(6, true), PagePreview(7, false), PagePreview(8, true), PagePreview(9, true),
                 PagePreview(10, true)];
    TenPageModel();
    FrontWithoutThree();
    BackWithoutSeven();
    SelectedNumbersAppend(front, back);
  }

  /** Pages 1..5 with page 3 deselected. */
  lemma FrontWithoutThree()
    ensures Numbers(Selected([PagePreview(1, true), PagePreview(2, true), PagePreview(3, false),
                              PagePreview(4, true), PagePreview(5, true)])) == [1, 2, 4, 5]
  {
  }

  /** Pages 6..10 with page 7 deselected. */
  lemma BackWithoutSeven()
    ensures Numbers(Selected([PagePreview(6, true), PagePreview(7, false), PagePreview(8, true),
                              PagePreview(9, true), PagePreview(10, true)])) == [6, 8, 9, 10]
  {
  }

  /** Selection and numbering distribute over concatenation. */
  lemma {:induction false} SelectedNumbersAppend(a: seq<PagePreview>, b: seq<PagePreview>)
    ensures Numbers(Selected(a + b)) == Numbers(Selected(a)) + Numbers(Selected(b))
    decreases |a|
  {
    if a == [] {
      assert a + b == b;
    } else {
      assert (a + b)[1..] == a[1..] + b;
      SelectedNumbersAppend(a[1..], b);
      var x := Numbers(Selected(a[1..]));
      var y := Numbers(Selected(b));
      if a[0].selected {
        assert Numbers([a[0]] + Selected(a[1..] + b)) == [a[0].pageNumber as int] + (x + y);
        assert Numbers([a[0]] + Selected(a[1..])) == [a[0].pageNumber as int] + x;
      }
    }
  }

  /** The ten-page model after deselecting pages 3 and 7. */
  lemma TenPageModel()
    ensures Toggled(Toggled(FreshPreviews(10), 3), 7) ==
      [PagePreview(1, true), PagePreview(2, true), PagePreview(3, false), PagePreview(4, true),
       PagePreview(5, true)] +
      [PagePreview(6, true), PagePreview(7, false), PagePreview(8, true), PagePreview(9, true),
       PagePreview(10, true)]
  {
    var m := Toggled(Toggled(FreshPreviews(10), 3), 7);
    var lit := [PagePreview(1, true), PagePreview(2, true), PagePreview(3, false), PagePreview(4, true),
       PagePreview(5, true)] +
      [PagePreview(6, true), PagePreview(7, false), PagePreview(8, true), PagePreview(9, true),
       PagePreview(10, true)];
    assert forall k :: 0 <= k < 10 ==> m[k] == lit[k];
  }

  // ---------------------------------------------------------------------------
  // The run

  /** The archive entry name of page n. */
  function EntryName(pageNumber: nat): string
  {
    "page-" + DecimalString(pageNumber) + ".pdf"
  }

  lemma EntryNamesDistinct(a: nat, b: nat)
    requires a != b
    ensures EntryName(a) != EntryName(b)
  {
    if EntryName(a) == EntryName(b) {
      var sa, sb := DecimalString(a), DecimalString(b);
      assert |sa| == |sb|;
      assert sa == EntryName(a)[5..5 + |sa|];
      assert sb == EntryName(b)[5..5 + |sb|];
      DecimalStringInjective(a, b);
    }
  }

  /** One page copied into a document of its own and saved. */
  function SinglePageDocument(codec: Codec, source: Document, pageNumber: nat): (r: Result<Bytes>)
    ensures r.Ok? ==> 1 <= pageNumber <= |source| && codec.save([source[pageNumber - 1]]) == r
    ensures !(1 <= pageNumber <= |source|) ==> r.Err?
  {
    match CopyPages(source, [pageNumber - 1])
    case Err(m) => Err(m)
    case Ok(copied) =>
      assert IndicesInRange(source, [pageNumber - 1]) && [pageNumber - 1][0] == pageNumber - 1;
      assert copied == [source[pageNumber - 1]];
      codec.save(copied)
  }

  /** The archive entries of the pages in `selected`, in order; the first failure
      ends the run. */
  function ZipEntries(codec: Codec, source: Document, selected: seq<PagePreview>): Result<seq<ZipEntry>>
    decreases |selected|
  {
    if selected == [] then Ok([])
    else
      var last := selected[|selected| - 1];
      match ZipEntries(codec, source, selected[..|selected| - 1])
      case Err(m) => Err(m)
      case Ok(entries) =>
        match SinglePageDocument(codec, source, last.pageNumber)
        case Err(m) => Err(m)
        case Ok(bytes) => Ok(entries + [ZipEntry(EntryName(last.pageNumber), bytes)])
  }

  /** Entry k is named after the k-th selected page and holds the one-page
      document with exactly that source page. */
  lemma {:induction false} ZipEntriesContents(codec: Codec, source: Document, selected: seq<PagePreview>)
    requires ZipEntries(codec, source, selected).Ok?
    ensures var entries := ZipEntries(codec, source, selected).value;
      |entries| == |selected| &&
      forall k :: 0 <= k < |selected| ==>
        1 <= selected[k].pageNumber <= |source| &&
        entries[k].name == EntryName(selected[k].pageNumber) &&
        codec.save([source[selected[k].pageNumber - 1]]) == Ok(entries[k].data)
    decreases |selected|
  {
    if selected != [] {
      var init := selected[..|selected| - 1];
      var last := selected[|selected| - 1];
      ZipEntriesContents(codec, source, init);
      var entries := ZipEntries(codec, source, selected).value;
      var prefix := ZipEntries(codec, source, init).value;
      var bytes := SinglePageDocument(codec, source, last.pageNumber).value;
      assert entries == prefix + [ZipEntry(EntryName(last.pageNumber), bytes)];
      forall k | 0 <= k < |init| ensures selected[k] == init[k] && entries[k] == prefix[k] { }
    }
  }

  /** Zip entry names are all different when the selected page numbers are. */
  lemma ZipEntryNamesDistinct(codec: Codec, source: Document, selected: seq<PagePreview>)
    requires ZipEntries(codec, source, selected).Ok? && Ascending(selected)
    ensures var entries := ZipEntries(codec, source, selected).value;
      forall i, j :: 0 <= i < j < |entries| ==> entries[i].name != entries[j].name
  {
    ZipEntriesContents(codec, source, selected);
    var entries := ZipEntries(codec, source, selected).value;
    forall i, j | 0 <= i < j < |entries| ensures entries[i].name != entries[j].name {
      EntryNamesDistinct(selected[i].pageNumber, selected[j].pageNumber);
    }
  }

  /** The page indices of the selected pages. */
  function SelectedIndices(selected: seq<PagePreview>): (r: seq<int>)
    ensures |r| == |selected|
  {
    seq(|selected|, k requires 0 <= k < |selected| => selected[k].pageNumber - 1)
  }

  /** The document the extract branch saves: the selected pages in order. */
  function Extracted(source: Document, pages: seq<PagePreview>): Result<Document>
  {
    CopyPages(source, SelectedIndices(Selected(pages)))
  }

  /** The extracted document holds exactly the selected pages, one per selection,
      each the source page of that number. */
  lemma ExtractedContents(source: Document, pages: seq<PagePreview>)
    requires Extracted(source, pages).Ok?
    ensures var doc, sel := Extracted(source, pages).value, Selected(pages);
      |doc| == |sel| &&
      forall k :: 0 <= k < |sel| ==> 1 <= sel[k].pageNumber <= |source| && doc[k] == source[sel[k].pageNumber - 1]
  {
    var sel := Selected(pages);
    var indices := SelectedIndices(sel);
    forall k | 0 <= k < |sel| ensures 1 <= sel[k].pageNumber <= |source| {
      assert indices[k] == sel[k].pageNumber - 1;
    }
  }

  /** A model derived from the source document always extracts. */
  lemma ExtractFromDerivedModel(source: Document, pages: seq<PagePreview>)
    requires Numbered(pages) && |pages| == |source|
    ensures Extracted(source, pages).Ok?
  {
    forall p | p in Selected(pages) ensures 1 <= p.pageNumber <= |source| {
      SelectedMembers(pages, p);
    }
  }

  /** The whole run once the source is loaded: an archive of one entry per page when
      the selection covers the whole document, one document otherwise. */
  function SplitOutput(codec: Codec, source: Document, pages: seq<PagePreview>, totalPages: nat): Result<Blob>
  {
    var selected := Selected(pages);
    if |selected| == totalPages then
      match ZipEntries(codec, source, selected)
      case Err(m) => Err(m)
      case Ok(entries) =>
        match codec.zip(entries)
        case Err(m) => Err(m)
        case Ok(archive) => Ok(ZipBlob(entries, archive))
    else
      match Extracted(source, pages)
      case Err(m) => Err(m)
      case Ok(doc) =>
        match codec.save(doc)
        case Err(m) => Err(m)
        case Ok(bytes) => Ok(PdfBlob(bytes))
  }

  function SplitRun(codec: Codec, data: Bytes, pages: seq<PagePreview>, totalPages: nat): Result<Blob>
  {
    match codec.load(data)
    case Err(m) => Err(m)
    case Ok(source) => SplitOutput(codec, source, pages, totalPages)
  }

  /** The download name: pages.zip when every page is selected, extracted.pdf otherwise. */
  function DownloadName(pages: seq<PagePreview>, totalPages: nat): string
  {
    if |Selected(pages)| == totalPages then "pages.zip" else "extracted.pdf"
  }

  /** As long as the selection is left as the run saw it, the download name
      matches the kind of blob the run produced. */
  lemma DownloadNameMatchesBlob(codec: Codec, source: Document, pages: seq<PagePreview>, totalPages: nat)
    requires SplitOutput(codec, source, pages, totalPages).Ok?
    ensures var blob := SplitOutput(codec, source, pages, totalPages).value;
      (DownloadName(pages, totalPages) == "pages.zip" <==> blob.ZipBlob?) &&
      (DownloadName(pages, totalPages) == "extracted.pdf" <==> blob.PdfBlob?)
  {
  }

  /** The progress values of a successful archive run over n pages: entry i sets
      (i + 1) / n * 90, and the run ends at 100. */
  function ZipSteps(n: nat): (r: seq<real>)
    requires n > 0
    ensures |r| == n + 2
  {
    Ramp(n, n, 90.0) + [100.0]
  }

  /** The extract branch sets no progress between the start and the end. */
  const ExtractSteps: seq<real> := [0.0, 100.0]

  /** The archive run's progress rises strictly, the loop tops out at exactly 90,
      and the run ends at 100. */
  lemma ZipStepsIncreasing(n: nat)
    requires n > 0
    ensures Increasing(ZipSteps(n))
    ensures ZipSteps(n)[n] == 90.0
  {
    RampIncreasing(n, n, 90.0);
    assert Fraction(n - 1, n, 90.0) == 90.0;
    AppendKeepsIncreasing(Ramp(n, n, 90.0), 100.0);
  }

  /** A run stopped after i archive entries has shown a prefix of the full run's values. */
  lemma ZipStepsPrefix(i: nat, n: nat)
    requires 0 < n && i <= n
    ensures Ramp(i, n, 90.0) <= ZipSteps(n)
  {
    RampPrefix(i, n, n, 90.0);
  }

  // ---------------------------------------------------------------------------
  // The page

  class SplitTool {
    var files: seq<ManagedFile>
    var isProcessing: bool
    var progress: real
    var status: Status
    var result: Option<Blob>
    var pages: seq<PagePreview>
    var totalPages: nat
    /** Every progress value set since the current run started. */
    ghost var shown: seq<real>

    constructor ()
      ensures files == [] && !isProcessing && progress == 0.0 && status == Blank && result == None
      ensures pages == [] && totalPages == 0
    {
      files := [];
      isProcessing := false;
      progress := 0.0;
      status := Blank;
      result := None;
      pages := [];
      totalPages := 0;
      shown := [];
    }

    /** The effect that runs whenever the file list changes. */
    method LoadPdfInfo(codec: Codec) returns (notice: Notice)
      modifies this`pages, this`totalPages
      ensures files == [] ==> pages == [] && totalPages == 0 && notice == Silent
      ensures files != [] && codec.load(files[0].file.data).Ok? ==>
        totalPages == |codec.load(files[0].file.data).value| && pages == FreshPreviews(totalPages) && notice == Silent
      ensures files != [] && codec.load(files[0].file.data).Err? ==>
        pages == old(pages) && totalPages == old(totalPages) && notice == LoadFailed
    {
      if |files| == 0 {
        pages := [];
        totalPages := 0;
        return Silent;
      }
      var loaded := codec.load(files[0].file.data);
      if loaded.Err? {
        return LoadFailed;
      }
      totalPages := |loaded.value|;
      pages := FreshPreviews(totalPages);
      notice := Silent;
    }

    method TogglePage(pageNumber: int)
      modifies this`pages
      ensures pages == Toggled(old(pages), pageNumber)
    {
      pages := Toggled(pages, pageNumber);
    }

    method SelectAll()
      modifies this`pages
      ensures pages == WithAllSelected(old(pages))
    {
      pages := WithAllSelected(pages);
    }

    method DeselectAll()
      modifies this`pages
      ensures pages == WithNoneSelected(old(pages))
    {
      pages := WithNoneSelected(pages);
    }

    /** The status and progress shown before selected page i of n is copied. */
    method Tick(i: nat, n: nat)
      requires i < n && shown == Ramp(i, n, 90.0)
      modifies this`progress, this`status, this`shown
      ensures status == ExtractingPage(i + 1)
      ensures shown == Ramp(i + 1, n, 90.0) && progress == shown[i + 1]
    {
      status := ExtractingPage(i + 1);
      progress := Fraction(i, n, 90.0);
      shown := shown + [progress];
    }

    /** The archive loop: one single-page document per selected page, each step
        announcing its page and setting (i + 1) / n * 90. The first failure ends it. */
    method ArchivePages(codec: Codec, source: Document, selected: seq<PagePreview>)
        returns (r: Result<seq<ZipEntry>>)
      requires selected != [] && shown == [0.0] && progress == 0.0
      modifies this`progress, this`status, this`shown
      ensures r == ZipEntries(codec, source, selected)
      ensures 2 <= |shown| <= |selected| + 1 && shown == Ramp(|shown| - 1, |selected|, 90.0)
      ensures progress == shown[|shown| - 1]
      ensures r.Ok? ==> |shown| == |selected| + 1
    {
      var n := |selected|;
      var entries: seq<ZipEntry> := [];
      var i := 0;
      while i < n
        invariant 0 <= i <= n
        invariant ZipEntries(codec, source, selected[..i]) == Ok(entries)
        invariant shown == Ramp(i, n, 90.0) && progress == shown[i]
        invariant i == 0 ==> shown == [0.0]
      {
        Tick(i, n);
        assert selected[..i + 1][..i] == selected[..i];
        var page := selected[i];
        var bytes := SinglePageDocument(codec, source, page.pageNumber);
        if bytes.Err? {
          ZipEntriesPrefixFails(codec, source, selected, i + 1);
          r := ZipEntries(codec, source, selected);
          assert r.Err? && |shown| - 1 == i + 1;
          return;
        }
        entries := entries + [ZipEntry(EntryName(page.pageNumber), bytes.value)];
        i := i + 1;
      }
      assert selected[..n] == selected;
      assert |shown| - 1 == n;
      r := Ok(entries);
    }

    /** The run: nothing without a file, a notice without a selected page, and
        otherwise the run's blob with the progress values of its branch. */
    method HandleSplit(codec: Codec) returns (notice: Notice)
      modifies this`isProcessing, this`progress, this`status, this`result, this`shown
      ensures old(files) == [] || Selected(pages) == [] ==> (
        notice == (if old(files) == [] then Silent else NeedSelectedPage) &&
        isProcessing == old(isProcessing) && progress == old(progress) && status == old(status) &&
        result == old(result) && shown == old(shown))
      ensures old(files) != [] && Selected(pages) != [] ==>
        var run := SplitRun(codec, files[0].file.data, pages, totalPages);
        var steps := if |Selected(pages)| == totalPages then ZipSteps(|Selected(pages)|) else ExtractSteps;
        !isProcessing &&
        shown <= steps && |shown| > 0 && progress == shown[|shown| - 1] &&
        (run.Ok? ==> result == Some(run.value) && shown == steps && status == Done && notice == Succeeded) &&
        (run.Err? ==> result == None && notice == Failed)
    {
      if |files| == 0 {
        return Silent;
      }
      var selectedPages := Selected(pages);
      if |selectedPages| == 0 {
        return NeedSelectedPage;
      }
      notice := SplitFile(codec, files[0].file.data, pages, totalPages);
    }

    /** The extract branch: the selected pages, in order, saved as one new document. */
    method SaveExtracted(codec: Codec, source: Document, model: seq<PagePreview>, total: nat) returns (r: Result<Blob>)
      requires |Selected(model)| != total
      modifies this`status
      ensures r == SplitOutput(codec, source, model, total)
      ensures r.Ok? ==> status == Finishing
    {
      // the selected pages, in order, in one new document
      var copied := CopyPages(source, SelectedIndices(Selected(model)));
      if copied.Err? {
        return Err(copied.message);
      }
      var newPdf: Document := [];
      newPdf := newPdf + copied.value;
      assert newPdf == Extracted(source, model).value;
      status := Finishing;
      var saved := codec.save(newPdf);
      if saved.Err? {
        return Err(saved.message);
      }
      r := Ok(PdfBlob(saved.value));
    }

    /** The run on the first file's bytes, with the page model and page count as
        they stand and at least one page selected. */
    method SplitFile(codec: Codec, data: Bytes, model: seq<PagePreview>, total: nat) returns (notice: Notice)
      requires Selected(model) != []
      modifies this`isProcessing, this`progress, this`status, this`result, this`shown
      ensures
        var run := SplitRun(codec, data, model, total);
        var steps := if |Selected(model)| == total then ZipSteps(|Selected(model)|) else ExtractSteps;
        !isProcessing &&
        shown <= steps && |shown| > 0 && progress == shown[|shown| - 1] &&
        (run.Ok? ==> result == Some(run.value) && shown == steps && status == Done && notice == Succeeded) &&
        (run.Err? ==> result == None && notice == Failed)
    {
      var selectedPages := Selected(model);
      isProcessing := true;
      progress := 0.0;
      shown := [progress];
      status := LoadingPdf;
      result := None;

      var loaded := codec.load(data);
      if loaded.Err? {
        isProcessing := false;
        return Failed;
      }
      var sourcePdf := loaded.value;
      var n := |selectedPages|;
      assert SplitRun(codec, data, model, total) == SplitOutput(codec, sourcePdf, model, total);

      if n == total {
        var entries := ArchivePages(codec, sourcePdf, selectedPages);
        ZipStepsPrefix(|shown| - 1, n);
        if entries.Err? {
          isProcessing := false;
          return Failed;
        }
        assert shown == Ramp(n, n, 90.0);
        status := CreatingZip;
        var archive := codec.zip(entries.value);
        if archive.Err? {
          isProcessing := false;
          return Failed;
        }
        result := Some(ZipBlob(entries.value, archive.value));
      } else {
        var extracted := SaveExtracted(codec, sourcePdf, model, total);
        if extracted.Err? {
          isProcessing := false;
          return Failed;
        }
        result := Some(extracted.value);
      }
      progress := 100.0;
      shown := shown + [progress];
      status := Done;
      isProcessing := false;
      notice := Succeeded;
    }

    function Download(): (r: Option<SaveAs>)
      reads this
      ensures r.Some? <==> result.Some?
      ensures r.Some? ==> (r.value.blob == result.value &&
        r.value.fileName == (if |Selected(pages)| == totalPages then "pages.zip" else "extracted.pdf"))
    {
      if result.Some? then Some(SaveAs(result.value, DownloadName(pages, totalPages))) else None
    }

    /** Clears the run and the model. The page count is not touched here: the
        effect that follows the emptied file list sets it to 0. */
    method HandleReset()
      modifies this`files, this`result, this`progress, this`status, this`pages
      ensures files == [] && result == None && progress == 0.0 && status == Blank && pages == []
    {
      files := [];
      result := None;
      progress := 0.0;
      status := Blank;
      pages := [];
    }
  }

  /** A failure while building entry k - 1 fails the whole archive. */
  lemma {:induction false} ZipEntriesPrefixFails(codec: Codec, source: Document, selected: seq<PagePreview>, k: nat)
    requires k <= |selected|
    requires ZipEntries(codec, source, selected[..k]).Err?
    ensures ZipEntries(codec, source, selected).Err?
    decreases |selected| - k
  {
    if k < |selected| {
      var next := selected[..k + 1];
      assert next[..|next| - 1] == selected[..k];
      ZipEntriesPrefixFails(codec, source, selected, k + 1);
    } else {
      assert selected[..k] == selected;
    }
  }
}

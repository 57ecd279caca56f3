# PDF tools: a verified model of the tool pages

This project models the core of a browser-side PDF tool set. It covers:

- the file drop zone that every tool page uses to collect its input files: filtering a batch, giving each file an id, appending or replacing, removal, and drag-to-reorder;
- seven tool pages, each a small state machine over its list of files, a processing flag, a progress value, a status label and a result blob:
  - **Rotate**: a page model with a selection flag and a pending quarter-turn per page, applied to the document;
  - **Split**: a page model with selection flags. Selecting every page gives a zip archive of one-page documents. Selecting a strict subset gives one document of the selected pages;
  - **Merge**: two or more PDFs concatenated in list order;
  - **Image to PDF**: one page per JPEG or PNG, sized to the image; other types are skipped;
  - **Protect**: a password validation chain, then a re-save without encryption;
  - **Compress**: a re-save with object streams, plus the rounded size-reduction percentage;
  - **Unlock**: a load with encryption ignored, then a re-save, with failures classified by their text.

The document library (load, save, embed an image), together with the zip library's archive generation, is the `Codec` datatype in `PdfModel`. Its fields are functions that may fail, and every handler takes it as a parameter. Copying pages by index (`CopyPages`) is modelled exactly: it fails on an index that names no page.

Each tool page is a `class` with the page's own state fields. Each handler is a method that changes exactly the fields it names in `modifies`. A ghost field `shown` records every progress value set since the run started. Each handler's postcondition ties its outcome to a pure reference function of the run (`MergeRun`, `SplitRun`, ...):

- on success, `shown` is exactly the run's progress sequence;
- in every case, `shown` is a prefix of that sequence.

Lemmas prove the properties of the reference functions: ordering of progress values, page counts, round trips, and if-and-only-if conditions.

The JavaScript behaviour the pages depend on is written out:

- `%` truncates toward zero (`JsRem`);
- `String.prototype.includes` is a left-to-right scan (`Includes`);
- a template literal renders a number in decimal (`DecimalString`);
- `Math.round` rounds halves up. It is computed exactly on integers in `CompressionPercent`.

Progress values are exact rationals (`real`).

The model follows the code on these points:

- The size-reduction percentage is not clamped at 0. A larger output gives a negative percentage (`CompressionPercentSign`).
- No handler guards against a second run starting while one is in flight. The pages only hide their controls during a run, so the model has no such guard.
- Reordering does not clamp indices. The indices come from rendered list items, so `ItemDragOver` requires them to be in range.
- "Reset" does not restore every field. Split's reset leaves `totalPages` to the effect that follows the emptied file list. Compress's reset keeps the quality slider's value.
- With 20 or more files, the Merge progress bar moves backwards before the final save. The last per-file value n/(n+1)·100 exceeds the 95 that follows it. `MergeStepsNonDecreasingIff` proves the exact condition, n ≤ 19.

## Model

| member | source | states |
|---|---|---|
| PdfModel.CopyPages | src/pages/pdf/SplitPdf.tsx:101-104 | copying succeeds iff every index names a page; the copy has one page per index, page k being the source page at index k |
| PdfModel.CopyAllPages | src/pages/pdf/MergePdf.tsx:38 | copying every page index of a document yields the document itself |
| PdfModel.RampIncreasing | src/pages/pdf/MergePdf.tsx:32-34 | a loop setting (i+1)/d·scale on iteration i produces strictly increasing values from 0, the last being i/d·scale, none above scale |
| PdfModel.RampPrefix | src/pages/pdf/MergePdf.tsx:32-40 | a loop stopped after i iterations has shown a prefix of what a longer run shows |
| PdfModel.FixedStepsIncreasing | src/pages/pdf/ProtectPdf.tsx:41-65 | the single-file tools' progress 0, 30, 60, 90, 100 rises strictly from 0 to 100 |
| PdfModel.JsRem | src/pages/pdf/RotatePdf.tsx:66 | the truncating remainder lies strictly between -b and b, agrees with the mathematical one for a non-negative dividend and is never positive for a non-positive one |
| PdfModel.IncludesIffOccurs | src/components/pdf/FileDropzone.tsx:40 | the left-to-right scan finds t in s iff t occurs at some position of s |
| PdfModel.IncludesOnlyOwnCharacters | src/pages/pdf/UnlockPdf.tsx:53 | a text lacking some character of t never includes t |
| PdfModel.DecimalString | src/pages/pdf/SplitPdf.tsx:93 | the rendering of a number is non-empty and made of digits only |
| PdfModel.DecimalStringInjective | src/pages/pdf/SplitPdf.tsx:93 | different numbers render differently |
| FileDropzone.WithIds | src/components/pdf/FileDropzone.tsx:44 | accepted file k keeps its contents and gets the k-th fresh id |
| FileDropzone.AcceptedFilesMembers | src/components/pdf/FileDropzone.tsx:38-43 | a file survives the filter iff it is in the batch and passes the type and size checks |
| FileDropzone.AcceptedFilesAppend | src/components/pdf/FileDropzone.tsx:38-43 | filtering distributes over concatenation, so accepted files keep their relative order |
| FileDropzone.AcceptedFilesSingle | src/components/pdf/FileDropzone.tsx:39-43 | one file is kept iff it passes the per-file checks |
| FileDropzone.PdfToolsTakeOnlyPdf | src/components/pdf/FileDropzone.tsx:40 | with the accept string application/pdf, only files of type application/pdf pass |
| FileDropzone.ImageToolsSkipTypeCheck | src/components/pdf/FileDropzone.tsx:40 | the image accept string does not contain "pdf", so a file of any type within the size limit passes |
| FileDropzone.SizeLimitInclusive | src/components/pdf/FileDropzone.tsx:41 | a file of exactly maxSize MB passes and one byte more is rejected |
| FileDropzone.ProcessFilesAppends | src/components/pdf/FileDropzone.tsx:46-47 | in multiple mode the new list is the old list unchanged, followed by the accepted files with fresh ids in batch order |
| FileDropzone.ProcessFilesReplaces | src/components/pdf/FileDropzone.tsx:48-49 | in single mode the list becomes the first accepted file, or empty when none is accepted |
| FileDropzone.ProcessFilesKeepsIdsUnique | src/components/pdf/FileDropzone.tsx:37-51 | intake keeps ids distinct and below the next fresh id |
| FileDropzone.RemovedMembers | src/components/pdf/FileDropzone.tsx:65-67 | a file stays on the list iff it was there and carries another id |
| FileDropzone.RemovedUnknownId | src/components/pdf/FileDropzone.tsx:65-67 | removing an id no file carries leaves the list exactly as it was |
| FileDropzone.RemovedAppend | src/components/pdf/FileDropzone.tsx:65-67 | removal distributes over concatenation, so survivors keep their order |
| FileDropzone.RemovedSingle | src/components/pdf/FileDropzone.tsx:66 | a one-file list loses its file iff the file carries the id |
| FileDropzone.RemovedPresentId | src/components/pdf/FileDropzone.tsx:65-67 | with unique ids, removing the id at position k drops exactly that entry |
| FileDropzone.RemovedKeepsIdsUnique | src/components/pdf/FileDropzone.tsx:65-67 | removal keeps ids distinct and issued |
| FileDropzone.Moved | src/components/pdf/FileDropzone.tsx:77-79 | a move keeps the list's length |
| FileDropzone.MovedIsRemoveThenInsert | src/components/pdf/FileDropzone.tsx:77-79 | the two splices compute the reference move |
| FileDropzone.MovedIsPermutation | src/components/pdf/FileDropzone.tsx:77-79 | a move keeps every file with its multiplicity |
| FileDropzone.MovedKeepsOthersInOrder | src/components/pdf/FileDropzone.tsx:77-79 | the dragged file lands at the target position, and the others keep their relative order |
| FileDropzone.MovedBack | src/components/pdf/FileDropzone.tsx:73-82 | dragging the file back to where it came from restores the list |
| FileDropzone.MovedKeepsIdsUnique | src/components/pdf/FileDropzone.tsx:73-82 | reordering keeps ids distinct and issued |
| FileDropzone.Dropzone.constructor | src/components/pdf/FileDropzone.tsx:17-25 | a new drop zone has its properties, an empty list and no drag in progress |
| FileDropzone.Dropzone.ProcessBatch | src/components/pdf/FileDropzone.tsx:37-51 | a drop sets the list to the intake result, issues one fresh id per accepted file and keeps ids unique |
| FileDropzone.Dropzone.RemoveFile | src/components/pdf/FileDropzone.tsx:65-67 | the list loses exactly the files with that id and keeps ids unique |
| FileDropzone.Dropzone.ItemDragStart | src/components/pdf/FileDropzone.tsx:69-71 | the dragged index is recorded |
| FileDropzone.Dropzone.ItemDragOver | src/components/pdf/FileDropzone.tsx:73-82 | with no drag, or over the dragged item itself, nothing changes; otherwise the list becomes the reference move, the dragged file sits at the hovered index, and that index becomes the dragged one |
| FileDropzone.Dropzone.ItemDragEnd | src/components/pdf/FileDropzone.tsx:84-86 | the drag is cleared |
| RotatePdf.FreshPages | src/pages/pdf/RotatePdf.tsx:38-44 | a derived model numbers the pages 1..N, every page selected with no rotation |
| RotatePdf.ToggledFlipsOnlyThatPage | src/pages/pdf/RotatePdf.tsx:54-60 | toggling flips the flag of pages with that number and changes nothing else |
| RotatePdf.ToggledOnNumberedModel | src/pages/pdf/RotatePdf.tsx:54-60 | on a numbered model a number in 1..N flips exactly that page, and any other number changes nothing |
| RotatePdf.ToggledTwice | src/pages/pdf/RotatePdf.tsx:54-60 | toggling the same number twice restores the model |
| RotatePdf.TurnedActsOnSelection | src/pages/pdf/RotatePdf.tsx:62-68 | a turn changes the rotation of selected pages only, by one quarter in its direction, and keeps numbers and flags |
| RotatePdf.TurnPreservesQuarter | src/pages/pdf/RotatePdf.tsx:66 | a turn keeps a rotation in {0, 90, 180, 270} |
| RotatePdf.FourTurns | src/pages/pdf/RotatePdf.tsx:66 | four clockwise turns give back the angle |
| RotatePdf.TurnsCancel | src/pages/pdf/RotatePdf.tsx:62-69 | a counter-clockwise turn undoes a clockwise one and the other way round |
| RotatePdf.TurnWithinCircle | src/pages/pdf/RotatePdf.tsx:66 | from an angle in [0, 360), a clockwise turn gives angle+90 or angle−270 and a counter-clockwise one angle+270 or angle−90 |
| RotatePdf.TurnedBack | src/pages/pdf/RotatePdf.tsx:62-68 | turning the model clockwise and then counter-clockwise restores it |
| RotatePdf.SelectAllKeepsRotations | src/pages/pdf/RotatePdf.tsx:203 | select-all sets every flag and keeps numbers and rotations |
| RotatePdf.ResetRotationsKeepsSelection | src/pages/pdf/RotatePdf.tsx:210 | resetting rotations leaves no pending rotation and keeps numbers and flags |
| RotatePdf.FreshPagesHaveNoRotations | src/pages/pdf/RotatePdf.tsx:128 | a freshly derived model offers no apply button |
| RotatePdf.ApplyRotations | src/pages/pdf/RotatePdf.tsx:87-94 | applying succeeds iff every page with a pending rotation exists; each page's new angle is its old angle plus its pending rotation |
| RotatePdf.AddRotations | src/pages/pdf/RotatePdf.tsx:87-94 | the page loop computes exactly the reference application: each page's angle plus its pending rotation, or the failure when a pending rotation names a missing page |
| RotatePdf.ApplyRotationsComposes | src/pages/pdf/RotatePdf.tsx:91-92 | applying two models in turn adds both rotations |
| RotatePdf.ApplyRotationsKeepsUnrotated | src/pages/pdf/RotatePdf.tsx:89 | a page without a pending rotation keeps its angle |
| RotatePdf.DerivedModelApplies | src/pages/pdf/RotatePdf.tsx:87-94 | a model as long as the document always applies |
| RotatePdf.RotateStepsIncreasing | src/pages/pdf/RotatePdf.tsx:76-102 | the run's progress 0, 30, 70, 100 rises strictly |
| RotatePdf.RotateTool.constructor | src/pages/pdf/RotatePdf.tsx:19-25 | the page starts with no files, no run, no result and an empty model |
| RotatePdf.RotateTool.LoadPdfInfo | src/pages/pdf/RotatePdf.tsx:27-52 | no file clears the model; a loaded file gives the fresh model of its page count; a file that does not load keeps the model and raises the load-failure notice |
| RotatePdf.RotateTool.TogglePage | src/pages/pdf/RotatePdf.tsx:54-60 | the model becomes the toggled model |
| RotatePdf.RotateTool.RotateSelected | src/pages/pdf/RotatePdf.tsx:62-70 | the selected pages and the global rotation each turn by one quarter |
| RotatePdf.RotateTool.SelectAll | src/pages/pdf/RotatePdf.tsx:203 | every page becomes selected |
| RotatePdf.RotateTool.ResetRotations | src/pages/pdf/RotatePdf.tsx:210 | every pending rotation is cleared |
| RotatePdf.RotateTool.HandleRotate | src/pages/pdf/RotatePdf.tsx:72-111 | without files nothing changes; otherwise the loop applies the pending rotations page by page, and the result is the load-apply-save run, with its progress shown in order; a failure leaves no result and the processing flag off |
| RotatePdf.RotateTool.RotateFile | src/pages/pdf/RotatePdf.tsx:75-111 | the run on the given bytes and model: its progress is a prefix of 0, 30, 70, 100, the full sequence with the saved document as result on success, and no result on failure |
| RotatePdf.RotateTool.Download | src/pages/pdf/RotatePdf.tsx:113-117 | a result is offered as rotated.pdf, and nothing is offered without one |
| RotatePdf.RotateTool.HandleReset | src/pages/pdf/RotatePdf.tsx:119-126 | files, result, progress, status, model and global rotation return to their initial values |
| SplitPdf.FreshPreviews | src/pages/pdf/SplitPdf.tsx:40-45 | a derived model numbers the pages 1..N, all selected |
| SplitPdf.ToggledOnNumberedModel | src/pages/pdf/SplitPdf.tsx:55-61 | on a numbered model a number in 1..N flips exactly that page, and any other number changes nothing |
| SplitPdf.BulkSelection | src/pages/pdf/SplitPdf.tsx:183-190 | select-all selects the whole model and deselect-all selects nothing, both keeping page numbers |
| SplitPdf.SelectedMembers | src/pages/pdf/SplitPdf.tsx:66 | a descriptor is selected for the run iff it is in the model with its flag set |
| SplitPdf.SelectedAscending | src/pages/pdf/SplitPdf.tsx:66 | on an ascending model the selected pages come out in ascending page order, whatever order they were clicked in |
| SplitPdf.NumberedIsAscending | src/pages/pdf/SplitPdf.tsx:41-44 | a derived model is ascending |
| SplitPdf.TenPagesWithoutThreeAndSeven | src/pages/pdf/SplitPdf.tsx:66 | ten pages with 3 and 7 toggled off select 1, 2, 4, 5, 6, 8, 9, 10 |
| SplitPdf.SelectedNumbersAppend | src/pages/pdf/SplitPdf.tsx:66 | the selected page numbers of two concatenated models are those of the first followed by those of the second |
| SplitPdf.EntryNamesDistinct | src/pages/pdf/SplitPdf.tsx:93 | different page numbers give different archive entry names |
| SplitPdf.SinglePageDocument | src/pages/pdf/SplitPdf.tsx:89-92 | a one-page document exists only for a page number in 1..N, and it is the save of exactly that source page |
| SplitPdf.ZipEntriesContents | src/pages/pdf/SplitPdf.tsx:85-94 | the archive has one entry per selected page, entry k being named after the k-th selected page and holding exactly that page |
| SplitPdf.ZipEntryNamesDistinct | src/pages/pdf/SplitPdf.tsx:93 | archive entry names are pairwise distinct |
| SplitPdf.ZipEntriesPrefixFails | src/pages/pdf/SplitPdf.tsx:85-94 | a page that fails ends the whole archive run in failure |
| SplitPdf.ExtractedContents | src/pages/pdf/SplitPdf.tsx:101-104 | the extracted document holds the selected pages in order, each the source page of that number |
| SplitPdf.ExtractFromDerivedModel | src/pages/pdf/SplitPdf.tsx:102-103 | a model derived from the document always extracts |
| SplitPdf.DownloadNameMatchesBlob | src/pages/pdf/SplitPdf.tsx:123-129 | as long as the selection is unchanged, the download name is pages.zip exactly for an archive and extracted.pdf exactly for a document |
| SplitPdf.ZipStepsIncreasing | src/pages/pdf/SplitPdf.tsx:73-112 | the archive run's progress rises strictly, its loop tops out at exactly 90, and it ends at 100 |
| SplitPdf.ZipStepsPrefix | src/pages/pdf/SplitPdf.tsx:85-94 | an archive run stopped early has shown a prefix of the full run's progress |
| SplitPdf.SplitTool.constructor | src/pages/pdf/SplitPdf.tsx:19-25 | the page starts with no files, no result, an empty model and page count 0 |
| SplitPdf.SplitTool.LoadPdfInfo | src/pages/pdf/SplitPdf.tsx:27-53 | no file clears the model and the count; a loaded file sets the count and the fresh model; a failure keeps both and raises the load-failure notice |
| SplitPdf.SplitTool.TogglePage | src/pages/pdf/SplitPdf.tsx:55-61 | the model becomes the toggled model |
| SplitPdf.SplitTool.SelectAll | src/pages/pdf/SplitPdf.tsx:183 | every page becomes selected |
| SplitPdf.SplitTool.DeselectAll | src/pages/pdf/SplitPdf.tsx:190 | no page stays selected |
| SplitPdf.SplitTool.ArchivePages | src/pages/pdf/SplitPdf.tsx:85-94 | the loop's entries are the reference archive entries, and its progress values are (i+1)/n·90 in order, all of them on success |
| SplitPdf.SplitTool.SaveExtracted | src/pages/pdf/SplitPdf.tsx:100-110 | the extract branch yields the reference output: the selected pages copied in order into one document and saved, or the copy's or the save's failure |
| SplitPdf.SplitTool.HandleSplit | src/pages/pdf/SplitPdf.tsx:63-121 | without files nothing happens; with no page selected a notice and nothing else; otherwise the result is the archive when every page is selected and the extracted document otherwise, with that branch's progress shown in order; a failure of the load, of any page, of the archive generation, of the copy or of the save leaves no result |
| SplitPdf.SplitTool.SplitFile | src/pages/pdf/SplitPdf.tsx:72-121 | with a non-empty selection, the run's progress is a prefix of the archive or the extract sequence, the whole sequence with the reference output (the generated archive of the entries, or the saved extract) as result on success, and no result on failure, including a failed archive generation |
| SplitPdf.SplitTool.Download | src/pages/pdf/SplitPdf.tsx:123-129 | a result is offered under pages.zip when the selection covers the page count and under extracted.pdf otherwise |
| SplitPdf.SplitTool.HandleReset | src/pages/pdf/SplitPdf.tsx:131-137 | files, result, progress, status and model are cleared; the page count is not touched |
| MergePdf.MergedOkIffAllLoad | src/pages/pdf/MergePdf.tsx:32-40 | the merge succeeds iff every file loads, and then its page count is the sum of the files' page counts |
| MergePdf.MergedAppend | src/pages/pdf/MergePdf.tsx:32-40 | merging a list merges its halves and concatenates them |
| MergePdf.MergedSingle | src/pages/pdf/MergePdf.tsx:36-39 | one file merges into exactly its own pages |
| MergePdf.MergedPlacesFile | src/pages/pdf/MergePdf.tsx:30-40 | file k's pages sit in their own order right after the pages of the files before it |
| MergePdf.MergedPrefixFails | src/pages/pdf/MergePdf.tsx:36-37 | a file that does not load fails the whole merge |
| MergePdf.MergeLoopBelowHundred | src/pages/pdf/MergePdf.tsx:34 | the per-file progress rises strictly and stays below 100 |
| MergePdf.LastFileValue | src/pages/pdf/MergePdf.tsx:34 | the last per-file value n/(n+1)·100 is at most 95 iff n ≤ 19 |
| MergePdf.MergeStepsPrefixes | src/pages/pdf/MergePdf.tsx:32-48 | a run that stops early has shown a prefix of the full run's progress |
| MergePdf.MergeStepsNonDecreasingIff | src/pages/pdf/MergePdf.tsx:34-48 | the whole progress sequence never decreases iff there are at most 19 files |
| MergePdf.MergeTool.constructor | src/pages/pdf/MergePdf.tsx:12-16 | the page starts with no files, no run and no result |
| MergePdf.MergeTool.CombineFiles | src/pages/pdf/MergePdf.tsx:30-40 | the loop's document is the reference merge, and its progress values are (i+1)/(n+1)·100 in order, all of them on success |
| MergePdf.MergeTool.SaveMerged | src/pages/pdf/MergePdf.tsx:42-50 | after the loop the run shows 95, then on a successful save the result is the saved bytes and it shows 100; a failed save leaves the result unset |
| MergePdf.MergeTool.HandleMerge | src/pages/pdf/MergePdf.tsx:18-57 | with fewer than two files, a notice and nothing else; otherwise the result is the saved merge with progress shown in order through 95 and 100; a failure leaves no result and the processing flag off |
| MergePdf.MergeTool.Download | src/pages/pdf/MergePdf.tsx:59-63 | a result is offered as combined.pdf |
| MergePdf.MergeTool.HandleReset | src/pages/pdf/MergePdf.tsx:65-70 | files, result, progress and status are cleared, and the merge button is no longer offered |
| JpgToPdf.KindOf | src/pages/pdf/JpgToPdf.tsx:38-44 | image/jpeg and image/jpg embed as JPEG, image/png as PNG, and nothing else embeds |
| JpgToPdf.ImagePage | src/pages/pdf/JpgToPdf.tsx:46-52 | an image's page has the image's size, with the image drawn at the origin at full size |
| JpgToPdf.ConvertedOkIffAllEmbed | src/pages/pdf/JpgToPdf.tsx:30-53 | conversion succeeds iff every supported file embeds, and then it has one page per supported file |
| JpgToPdf.ConvertedAppend | src/pages/pdf/JpgToPdf.tsx:30-53 | converting a list converts its halves and concatenates the pages, so pages follow file order |
| JpgToPdf.ConvertedSingle | src/pages/pdf/JpgToPdf.tsx:37-52 | a supported image gives exactly its page, and any other type gives none |
| JpgToPdf.UnsupportedOnly | src/pages/pdf/JpgToPdf.tsx:42-44 | a batch with no supported file succeeds with no page |
| JpgToPdf.ConvertedPrefixFails | src/pages/pdf/JpgToPdf.tsx:39-41 | an image that fails to embed fails the whole run |
| JpgToPdf.ConvertStepsIncreasing | src/pages/pdf/JpgToPdf.tsx:32-61 | the run's progress rises strictly for any number of files, with the per-file values below 90 |
| JpgToPdf.ConvertStepsPrefixes | src/pages/pdf/JpgToPdf.tsx:30-56 | a run that stops early has shown a prefix of the full run's progress |
| JpgToPdf.ConvertTool.constructor | src/pages/pdf/JpgToPdf.tsx:13-17 | the page starts with no files, no run and no result |
| JpgToPdf.AddImage | src/pages/pdf/JpgToPdf.tsx:33-52 | one loop step is one step of the reference conversion: the image's page appended, the file skipped for an unsupported type, or the embedding's failure |
| JpgToPdf.ConvertTool.AddImagePages | src/pages/pdf/JpgToPdf.tsx:30-53 | the loop's document is the reference conversion, and its progress values are (i+1)/(n+1)·90 in order, all of them on success |
| JpgToPdf.ConvertTool.SaveConverted | src/pages/pdf/JpgToPdf.tsx:55-63 | after the loop the run shows 95, then on a successful save the result is the saved bytes and it shows 100; a failed save leaves the result unset |
| JpgToPdf.ConvertTool.HandleConvert | src/pages/pdf/JpgToPdf.tsx:19-70 | without files nothing happens; otherwise the result is the saved conversion with progress shown in order through 95 and 100; a failure leaves no result |
| JpgToPdf.ConvertTool.Download | src/pages/pdf/JpgToPdf.tsx:72-76 | a result is offered as images.pdf |
| JpgToPdf.ConvertTool.HandleReset | src/pages/pdf/JpgToPdf.tsx:78-83 | files, result, progress and status are cleared |
| ProtectPdf.PasswordProblem | src/pages/pdf/ProtectPdf.tsx:25-38 | the reported problem is "missing" iff the password is empty, "mismatch" iff it is non-empty and differs from the confirmation, "too short" iff it matches and is shorter than 4 |
| ProtectPdf.RunStartsIff | src/pages/pdf/ProtectPdf.tsx:25-40 | a run starts iff the password equals the confirmation and has at least 4 characters |
| ProtectPdf.FirstProblemWins | src/pages/pdf/ProtectPdf.tsx:25-38 | only the first failing check is reported: a short mismatching password is a mismatch, and an empty one is missing whatever the confirmation |
| ProtectPdf.ProtectRunIsPlainResave | src/pages/pdf/ProtectPdf.tsx:50-58 | the run uses only loading and the plain save: two libraries that agree on those agree on the run, whatever their object-stream save does, and it succeeds iff the load and the save both do |
| ProtectPdf.ProtectTool.constructor | src/pages/pdf/ProtectPdf.tsx:13-20 | the page starts with no files, no result and empty password fields |
| ProtectPdf.ProtectTool.HandleProtect | src/pages/pdf/ProtectPdf.tsx:22-75 | without files nothing happens; a password problem gives its notice and starts no run; otherwise the result is the re-saved document with progress 0, 30, 60, 90, 100, and the success notice says no encryption was applied |
| ProtectPdf.ProtectTool.ProtectFile | src/pages/pdf/ProtectPdf.tsx:40-75 | the run on one file: progress a prefix of 0, 30, 60, 90, 100, the whole of it with the plain re-save as result and the without-encryption notice on success |
| ProtectPdf.ProtectTool.SaveProtected | src/pages/pdf/ProtectPdf.tsx:52-67 | from 0, 30 the run shows 60, saves the loaded document unchanged, then 90 and 100 with the saved bytes as result; a failed save leaves the result as it was |
| ProtectPdf.ProtectTool.Download | src/pages/pdf/ProtectPdf.tsx:77-81 | a result is offered as protected.pdf |
| ProtectPdf.ProtectTool.HandleReset | src/pages/pdf/ProtectPdf.tsx:83-90 | files, result, progress, status and both password fields are cleared, so the password is reported missing again |
| CompressPdf.DefaultQualityIsLevel | src/pages/pdf/CompressPdf.tsx:110-117 | the default 70 is one of the slider's levels 10, 20, ..., 100; the constructor uses it to establish the page's invariant |
| CompressPdf.CompressionPercentRounds | src/pages/pdf/CompressPdf.tsx:86-88 | the percentage is the reduction 100·(o−c)/o rounded to the nearest integer, halves up |
| CompressPdf.CompressionPercentAtMostHundred | src/pages/pdf/CompressPdf.tsx:86-88 | the percentage never exceeds 100 |
| CompressPdf.CompressionPercentUnchanged | src/pages/pdf/CompressPdf.tsx:86-88 | equal sizes give 0 |
| CompressPdf.CompressionPercentSign | src/pages/pdf/CompressPdf.tsx:150 | the badge's percentage is positive iff the output is at least half a percent smaller, and negative iff it is more than half a percent larger, since it is not clamped |
| CompressPdf.CompressTool.constructor | src/pages/pdf/CompressPdf.tsx:13-20 | the page starts with quality 70, a slider level, and both sizes 0 |
| CompressPdf.CompressTool.SetQuality | src/pages/pdf/CompressPdf.tsx:110-117 | the slider stores the chosen level, so the quality stays a slider level |
| CompressPdf.CompressTool.HandleCompress | src/pages/pdf/CompressPdf.tsx:22-63 | without files nothing happens; otherwise the original size is the first file's size even if the run fails; on success the result is the object-stream save and the compressed size is its length, with progress 0, 30, 60, 90, 100; a failure keeps the old compressed size; the quality is neither read nor changed and stays a slider level |
| CompressPdf.CompressTool.CompressFile | src/pages/pdf/CompressPdf.tsx:24-63 | the run on one file records its size and shows a prefix of 0, 30, 60, 90, 100, the whole of it with the object-stream save as result and its size recorded on success |
| CompressPdf.CompressTool.SaveCompressed | src/pages/pdf/CompressPdf.tsx:38-56 | from 0, 30 the run shows 60, saves with object streams, then 90 and 100 with the bytes as result and their length as compressed size; a failed save changes neither |
| CompressPdf.CompressTool.Download | src/pages/pdf/CompressPdf.tsx:65-69 | a result is offered as compressed.pdf |
| CompressPdf.CompressTool.HandleReset | src/pages/pdf/CompressPdf.tsx:71-78 | files, result, progress, status and both sizes are cleared, so the percentage is 0 and no badge shows; the quality keeps its level |
| UnlockPdf.Classify | src/pages/pdf/UnlockPdf.tsx:53-57 | a failure is reported as the wrong-password notice or the generic one |
| UnlockPdf.ClassifyByOccurrence | src/pages/pdf/UnlockPdf.tsx:53-57 | the wrong-password notice is given iff "password" occurs in the failure text, and the generic one iff it occurs nowhere |
| UnlockPdf.MessageWithoutW | src/pages/pdf/UnlockPdf.tsx:53 | a failure text without a 'w' is never taken for a password problem |
| UnlockPdf.UnlockIgnoresPlainLoad | src/pages/pdf/UnlockPdf.tsx:34-41 | the run depends only on loading with encryption ignored and on saving, and it succeeds iff both do |
| UnlockPdf.UnlockTool.constructor | src/pages/pdf/UnlockPdf.tsx:13-19 | the page starts with no files, no result and an empty password |
| UnlockPdf.UnlockTool.HandleUnlock | src/pages/pdf/UnlockPdf.tsx:21-61 | without files nothing happens; otherwise the result is the re-saved document with progress 0, 30, 60, 90, 100; a failure is classified by its text; the processing flag is off either way; the password field is not read |
| UnlockPdf.UnlockTool.UnlockFile | src/pages/pdf/UnlockPdf.tsx:23-61 | the run on one file shows a prefix of 0, 30, 60, 90, 100, the whole of it with the re-save as result on success, and the classified notice on failure |
| UnlockPdf.UnlockTool.SaveUnlocked | src/pages/pdf/UnlockPdf.tsx:38-58 | from 0, 30 the run shows 60, saves, then 90 and 100 with the bytes as result; a failed save gives the notice its message classifies to |
| UnlockPdf.UnlockTool.Download | src/pages/pdf/UnlockPdf.tsx:63-67 | a result is offered as unlocked.pdf |
| UnlockPdf.UnlockTool.HandleReset | src/pages/pdf/UnlockPdf.tsx:69-75 | files, result, progress, status and the password are cleared |

## Left out

- PDF parsing, serialisation, object streams, image decoding and drawing belong to the document library. Its source is not part of this model. These are the abstract, possibly failing functions of `Codec`.
- Building the zip archive, creating the `Blob` and the save-as call belong to libraries. Generating an archive is the possibly failing `Codec.zip`; a zip blob carries its named entries and the generated bytes, and a download is the blob with its file name. The compressed size is the length of the saved bytes.
- Reading a file's bytes (`arrayBuffer`) is taken to succeed. The bytes are part of the file value.
- `crypto.randomUUID` is a counter (`nextId`) that hands out fresh ids.
- Asynchrony and React scheduling: each handler is one sequential method. Interleaved runs and state updates that land while a run is suspended are not modelled.
- The text of toasts and console logs: a handler returns one `Notice` value instead. Protect's two success toasts are the single `ProtectedWithoutEncryption` notice.
- The exact status texts: each is a `Status` constructor carrying only the file name, image index or page number the text embeds.
- Rendering is left out: JSX, CSS, pointer events, the `isDragging` hover flag and the `showPassword` toggle.
- `formatFileSize` and `formatSize` use floating-point `toFixed` and only produce display text.
- The presentation and routing files are not part of this model: Header, Footer, Hero, ToolCard, ToolSection, ToolLayout, ProcessingProgress, Index and App. The PngToPdf page that App routes to is also not part of this model.
- Progress and the compression percentage are exact rationals. Binary floating-point rounding of `(i + 1) / n * 90` and of `1 - c / o` is not modelled.
- ProtectPdf.PasswordProblem: measures the password in characters. JavaScript's `length` counts UTF-16 code units, so a password with characters outside the Basic Multilingual Plane can be reported too short more often here than in the page: the model's length never exceeds the page's.
- UnlockPdf.Classify: takes the failure's rendered text as given. How `String(error)` renders a thrown value is not modelled.
- FileDropzone.Dropzone.ItemDragOver: requires both indices to be in range, as the rendered list guarantees. An out-of-range index from outside the list is not modelled.

/** File intake: the drop zone every tool page uses to collect its input files.

    A dropped or picked batch is filtered by type and size, each accepted file gets
    a fresh id, and the batch is appended to the list (multi-file tools) or replaces
    it with at most one file (single-file tools). Files can be removed by id and,
    in the list, dragged to a new position. `processFiles` and `removeFile` are
    pure list computations; the drag reorder copies the list, splices the copy in
    place and moves the drag index along with the item. */
module FileDropzone {
  import opened PdfModel

  type Id = nat

  /** A file as the browser hands it over: name, size in bytes, MIME type and contents. */
  datatype RawFile = RawFile(name: string, size: nat, mimeType: string, data: Bytes)

  /** A file on a tool's list: the browser file with the id given to it on intake. */
  datatype ManagedFile = ManagedFile(id: Id, file: RawFile)

  /** The drop zone's properties: accepted types, append or replace, size limit in MB. */
  datatype Config = Config(accept: string, multiple: bool, maxSize: nat)

  /** The property defaults: PDF only, several files, 100 MB. */
  const DefaultConfig := Config("application/pdf", true, 100)
  const Megabyte := 1024 * 1024

  // ---------------------------------------------------------------------------
  // processFiles

  /** The per-file filter: a type check that applies only when the accept string
      mentions "pdf", then the size limit, which is inclusive. */
  predicate Accepts(config: Config, f: RawFile)
  {
    if Includes(config.accept, "pdf") && f.mimeType != "application/pdf" then false
    else if f.size > config.maxSize * Megabyte then false
    else true
  }

  /** The accepted files of a batch, in batch order. */
  function AcceptedFiles(config: Config, batch: seq<RawFile>): (r: seq<RawFile>)
    ensures |r| <= |batch|
  {
    if batch == [] then []
    else if Accepts(config, batch[0]) then [batch[0]] + AcceptedFiles(config, batch[1..])
    else AcceptedFiles(config, batch[1..])
  }

  /** Gives the accepted files the ids firstId, firstId + 1, ... in order. */
  function WithIds(accepted: seq<RawFile>, firstId: Id): (r: seq<ManagedFile>)
    ensures |r| == |accepted|
    ensures forall k :: 0 <= k < |r| ==> r[k].file == accepted[k] && r[k].id == firstId + k
  {
    seq(|accepted|, k requires 0 <= k < |accepted| => ManagedFile(firstId + k, accepted[k]))
  }

  /** The list handed to the page after a drop: the old list followed by the
      accepted files, or (single-file tools) at most the first accepted file. */
  function ProcessFiles(files: seq<ManagedFile>, batch: seq<RawFile>, config: Config, firstId: Id): seq<ManagedFile>
  {
    var newFiles := WithIds(AcceptedFiles(config, batch), firstId);
    if config.multiple then files + newFiles
    else newFiles[..if |newFiles| < 1 then |newFiles| else 1]
  }

  /** No two files on the list share an id. */
  predicate UniqueIds(files: seq<ManagedFile>)
  {
    forall i, j :: 0 <= i < j < |files| ==> files[i].id != files[j].id
  }

  /** Every id on the list was issued before `next`. */
  predicate IdsBelow(files: seq<ManagedFile>, next: Id)
  {
    forall k :: 0 <= k < |files| ==> files[k].id < next
  }

  // The filter: a file survives exactly when it passes both checks.
  lemma {:induction false} AcceptedFilesMembers(config: Config, batch: seq<RawFile>, f: RawFile)
    ensures f in AcceptedFiles(config, batch) <==> f in batch && Accepts(config, f)
  {
    if batch != [] {
      AcceptedFilesMembers(config, batch[1..], f);
      assert batch == [batch[0]] + batch[1..];
    }
  }

  // The filter keeps relative order: it distributes over concatenation.
  lemma {:induction false} AcceptedFilesAppend(config: Config, a: seq<RawFile>, b: seq<RawFile>)
    ensures AcceptedFiles(config, a + b) == AcceptedFiles(config, a) + AcceptedFiles(config, b)
  {
    if a == [] {
      assert a + b == b;
    } else {
      assert (a + b)[0] == a[0];
      assert (a + b)[1..] == a[1..] + b;
      AcceptedFilesAppend(config, a[1..], b);
    }
  }

  lemma AcceptedFilesSingle(config: Config, f: RawFile)
    ensures AcceptedFiles(config, [f]) == if Accepts(config, f) then [f] else []
  {
    assert [f][1..] == [];
  }

  /** With an accept string that names PDF, only application/pdf files pass. */
  lemma PdfToolsTakeOnlyPdf(maxSize: nat, multiple: bool, f: RawFile)
    ensures Accepts(Config("application/pdf", multiple, maxSize), f) ==> f.mimeType == "application/pdf"
  {
    assert OccursAt("application/pdf", "pdf", 12);
    IncludesIffOccurs("application/pdf", "pdf");
  }

  /** The image tool's accept string does not mention "pdf", so no type is rejected:
      only the size counts. */
  lemma ImageToolsSkipTypeCheck(maxSize: nat, multiple: bool, f: RawFile)
    ensures Accepts(Config("image/jpeg,image/jpg,image/png", multiple, maxSize), f)
        <==> f.size <= maxSize * Megabyte
  {
    IncludesOnlyOwnCharacters("image/jpeg,image/jpg,image/png", "pdf", 'd');
  }

  /** The size limit is inclusive: a file of exactly maxSize MB is kept, one byte more is not. */
  lemma SizeLimitInclusive(config: Config, f: RawFile)
    requires !Includes(config.accept, "pdf") || f.mimeType == "application/pdf"
    ensures f.size == config.maxSize * Megabyte ==> Accepts(config, f)
    ensures f.size == config.maxSize * Megabyte + 1 ==> !Accepts(config, f)
  {
  }

  /** Multi-file tools: the old list is kept as it was and in order, and the
      accepted files follow it with consecutive fresh ids. */
  lemma ProcessFilesAppends(files: seq<ManagedFile>, batch: seq<RawFile>, config: Config, firstId: Id)
    requires config.multiple
    ensures var r, acc := ProcessFiles(files, batch, config, firstId), AcceptedFiles(config, batch);
      |r| == |files| + |acc| && r[..|files|] == files &&
      forall k :: 0 <= k < |acc| ==> r[|files| + k] == ManagedFile(firstId + k, acc[k])
  {
    var r := ProcessFiles(files, batch, config, firstId);
    assert r[..|files|] == files;
  }

  /** Single-file tools: the list becomes the first accepted file, or empty when
      nothing was accepted (the file held before is dropped either way). */
  lemma ProcessFilesReplaces(files: seq<ManagedFile>, batch: seq<RawFile>, config: Config, firstId: Id)
    requires !config.multiple
    ensures var r, acc := ProcessFiles(files, batch, config, firstId), AcceptedFiles(config, batch);
      (acc == [] ==> r == []) && (acc != [] ==> r == [ManagedFile(firstId, acc[0])])
  {
  }

  /** Intake keeps ids unique: fresh ids never collide with the list's. */
  lemma ProcessFilesKeepsIdsUnique(files: seq<ManagedFile>, batch: seq<RawFile>, config: Config, firstId: Id)
    requires UniqueIds(files) && IdsBelow(files, firstId)
    ensures var r := ProcessFiles(files, batch, config, firstId);
      UniqueIds(r) && IdsBelow(r, firstId + |AcceptedFiles(config, batch)|)
  {
  }

  // ---------------------------------------------------------------------------
  // removeFile

  /** The list without the entries carrying the given id. */
  function Removed(files: seq<ManagedFile>, id: Id): (r: seq<ManagedFile>)
    ensures |r| <= |files|
  {
    if files == [] then []
    else if files[0].id != id then [files[0]] + Removed(files[1..], id)
    else Removed(files[1..], id)
  }

  lemma {:induction false} RemovedMembers(files: seq<ManagedFile>, id: Id, f: ManagedFile)
    ensures f in Removed(files, id) <==> f in files && f.id != id
  {
    if files != [] {
      RemovedMembers(files[1..], id, f);
      assert files == [files[0]] + files[1..];
    }
  }

  /** Removing an id no file carries leaves the list exactly as it was. */
  lemma {:induction false} RemovedUnknownId(files: seq<ManagedFile>, id: Id)
    requires forall k :: 0 <= k < |files| ==> files[k].id != id
    ensures Removed(files, id) == files
  {
    if files != [] {
      RemovedUnknownId(files[1..], id);
      assert files == [files[0]] + files[1..];
    }
  }

  /** The survivors keep their order: removal distributes over concatenation. */
  lemma {:induction false} RemovedAppend(a: seq<ManagedFile>, b: seq<ManagedFile>, id: Id)
    ensures Removed(a + b, id) == Removed(a, id) + Removed(b, id)
  {
    if a == [] {
      assert a + b == b;
    } else {
      assert (a + b)[0] == a[0];
      assert (a + b)[1..] == a[1..] + b;
      RemovedAppend(a[1..], b, id);
    }
  }

  /** A one-file list loses its file exactly when the file carries the id. */
  lemma RemovedSingle(x: ManagedFile, id: Id)
    ensures Removed([x], id) == if x.id == id then [] else [x]
  {
    assert [x][1..] == [];
  }

  /** On a list with unique ids, removing a present id drops exactly that one entry. */
  lemma RemovedPresentId(files: seq<ManagedFile>, k: nat)
    requires UniqueIds(files) && k < |files|
    ensures Removed(files, files[k].id) == files[..k] + files[k + 1..]
  {
    var id, a, b := files[k].id, files[..k], files[k + 1..];
    assert files == a + [files[k]] + b;
    forall j | 0 <= j < |a| ensures a[j].id != id { assert a[j] == files[j]; }
    forall j | 0 <= j < |b| ensures b[j].id != id { assert b[j] == files[k + 1 + j]; }
    RemovedUnknownId(a, id);
    RemovedUnknownId(b, id);
    RemovedSingle(files[k], id);
    RemovedAppend(a, [files[k]], id);
    assert Removed(a + [files[k]], id) == a;
    RemovedAppend(a + [files[k]], b, id);
  }

  /** Removal keeps ids unique and issued. */
  lemma {:induction false} RemovedKeepsIdsUnique(files: seq<ManagedFile>, id: Id, next: Id)
    requires UniqueIds(files) && IdsBelow(files, next)
    ensures UniqueIds(Removed(files, id)) && IdsBelow(Removed(files, id), next)
  {
    if files != [] {
      var tail := files[1..];
      assert UniqueIds(tail) && IdsBelow(tail, next) by {
        forall i, j | 0 <= i < j < |tail| ensures tail[i].id != tail[j].id {
          assert tail[i] == files[i + 1] && tail[j] == files[j + 1];
        }
      }
      RemovedKeepsIdsUnique(tail, id, next);
      var rest := Removed(tail, id);
      forall k | 0 <= k < |rest| ensures rest[k].id != files[0].id && rest[k].id < next {
        RemovedMembers(tail, id, rest[k]);
        var j :| 0 <= j < |tail| && tail[j] == rest[k];
        assert files[j + 1] == rest[k];
      }
      if files[0].id != id {
        var r := Removed(files, id);
        assert r == [files[0]] + rest;
        forall i, j | 0 <= i < j < |r| ensures r[i].id != r[j].id {
          assert r[j] == rest[j - 1];
          if i > 0 { assert r[i] == rest[i - 1]; }
        }
      }
    }
  }

  // ---------------------------------------------------------------------------
  // Drag reorder

  /** The reference meaning of a drag: the item at `from` is placed at `to` and the
      items between shift by one towards the gap it left. */
  function Moved<T>(s: seq<T>, from: nat, to: nat): (r: seq<T>)
    requires from < |s| && to < |s|
    ensures |r| == |s|
  {
    seq(|s|, k requires 0 <= k < |s| =>
      if k == to then s[from]
      else if from < to && from <= k < to then s[k + 1]
      else if to < from && to < k <= from then s[k - 1]
      else s[k])
  }

  /** The sequence without its element at k. */
  function Without<T>(s: seq<T>, k: nat): seq<T>
    requires k < |s|
  {
    s[..k] + s[k + 1..]
  }

  /** The sequence with x inserted before position k. */
  function Inserted<T>(s: seq<T>, k: nat, x: T): seq<T>
    requires k <= |s|
  {
    s[..k] + [x] + s[k..]
  }

  /** The two splices of the source compute the reference move. */
  lemma MovedIsRemoveThenInsert<T>(s: seq<T>, from: nat, to: nat)
    requires from < |s| && to < |s|
    ensures Moved(s, from, to) == Inserted(Without(s, from), to, s[from])
  {
    var r, w := Moved(s, from, to), Without(s, from);
    var t := Inserted(w, to, s[from]);
    assert |t| == |r|;
    forall k | 0 <= k < |s| ensures r[k] == t[k] {
      if k < to {
        assert t[k] == w[k];
      } else if k > to {
        assert t[k] == w[k - 1];
      }
    }
  }

  /** A move is a permutation: the same elements with the same multiplicities. */
  lemma MovedIsPermutation<T>(s: seq<T>, from: nat, to: nat)
    requires from < |s| && to < |s|
    ensures multiset(Moved(s, from, to)) == multiset(s)
  {
    MovedIsRemoveThenInsert(s, from, to);
    var w, x := Without(s, from), s[from];
    assert s == s[..from] + [x] + s[from + 1..];
    assert multiset(s) == multiset(s[..from]) + multiset([x]) + multiset(s[from + 1..]);
    assert multiset(w) == multiset(s[..from]) + multiset(s[from + 1..]);
    assert w == w[..to] + w[to..];
    assert multiset(w) == multiset(w[..to]) + multiset(w[to..]);
    assert multiset(Inserted(w, to, x)) == multiset(w[..to]) + multiset([x]) + multiset(w[to..]);
    assert multiset(Inserted(w, to, x)) == multiset(w) + multiset([x]) == multiset(s);
  }

  /** The moved item lands at `to`, and the other items keep their relative order. */
  lemma MovedKeepsOthersInOrder<T>(s: seq<T>, from: nat, to: nat)
    requires from < |s| && to < |s|
    ensures Moved(s, from, to)[to] == s[from]
    ensures Without(Moved(s, from, to), to) == Without(s, from)
  {
    MovedIsRemoveThenInsert(s, from, to);
    var w := Without(s, from);
    var m := Moved(s, from, to);
    assert Without(m, to) == w[..to] + w[to..];
  }

  /** Dragging the item back to where it came from restores the list. */
  lemma MovedBack<T>(s: seq<T>, from: nat, to: nat)
    requires from < |s| && to < |s|
    ensures Moved(Moved(s, from, to), to, from) == s
  {
    var m := Moved(s, from, to);
    var b := Moved(m, to, from);
    forall k | 0 <= k < |s| ensures b[k] == s[k] { }
    assert b == s;
  }

  lemma MovedKeepsIdsUnique(files: seq<ManagedFile>, from: nat, to: nat, next: Id)
    requires from < |files| && to < |files|
    requires UniqueIds(files) && IdsBelow(files, next)
    ensures UniqueIds(Moved(files, from, to)) && IdsBelow(Moved(files, from, to), next)
  {
    var m := Moved(files, from, to);
    forall i, j | 0 <= i < j < |m| ensures m[i].id != m[j].id {
      // m[i] and m[j] come from distinct positions of files
      var pi := if i == to then from else if from < to && from <= i < to then i + 1
                else if to < from && to < i <= from then i - 1 else i;
      var pj := if j == to then from else if from < to && from <= j < to then j + 1
                else if to < from && to < j <= from then j - 1 else j;
      assert m[i] == files[pi] && m[j] == files[pj];
      assert pi != pj;
    }
  }

  // ---------------------------------------------------------------------------
  // The drop zone component

  /** The drop zone's state: its properties, the list it last handed to the page
      (the page's `files`, passed back in as a property), the index of the item
      being dragged, and the id oracle that stands for the browser's UUID source. */
  class Dropzone {
    const config: Config
    var files: seq<ManagedFile>
    var draggedIndex: Option<nat>
    var nextId: Id

    ghost predicate Valid()
      reads this
    {
      UniqueIds(files) && IdsBelow(files, nextId)
    }

    constructor (config: Config)
      ensures this.config == config && files == [] && draggedIndex == None && Valid()
    {
      this.config := config;
      files := [];
      draggedIndex := None;
      nextId := 0;
    }

    /** A drop or a file-picker selection. */
    method ProcessBatch(batch: seq<RawFile>)
      requires Valid()
      modifies this
      ensures Valid()
      ensures files == ProcessFiles(old(files), batch, config, old(nextId))
      ensures nextId == old(nextId) + |AcceptedFiles(config, batch)|
      ensures draggedIndex == old(draggedIndex)
    {
      var accepted := AcceptedFiles(config, batch);
      var newFiles := WithIds(accepted, nextId);
      ProcessFilesKeepsIdsUnique(files, batch, config, nextId);
      if config.multiple {
        files := files + newFiles;
      } else {
        files := newFiles[..if |newFiles| < 1 then |newFiles| else 1];
      }
      nextId := nextId + |accepted|;
    }

    method RemoveFile(id: Id)
      requires Valid()
      modifies this`files
      ensures Valid()
      ensures files == Removed(old(files), id)
    {
      RemovedKeepsIdsUnique(files, id, nextId);
      files := Removed(files, id);
    }

    /** A list item starts being dragged. */
    method ItemDragStart(index: nat)
      requires index < |files|
      modifies this`draggedIndex
      ensures draggedIndex == Some(index)
    {
      draggedIndex := Some(index);
    }

    /** The dragged item passes over the item at `index`. */
    method ItemDragOver(index: nat)
      requires Valid()
      requires index < |files|
      requires draggedIndex.Some? ==> draggedIndex.value < |files|
      modifies this`files, this`draggedIndex
      ensures Valid()
      ensures old(draggedIndex) == None || old(draggedIndex) == Some(index) ==>
        files == old(files) && draggedIndex == old(draggedIndex)
      ensures old(draggedIndex).Some? && old(draggedIndex) != Some(index) ==>
        files == Moved(old(files), old(draggedIndex).value, index) &&
        files[index] == old(files)[old(draggedIndex).value] &&
        draggedIndex == Some(index)
    {
      if draggedIndex == None || draggedIndex == Some(index) {
        return;
      }
      var from := draggedIndex.value;
      var newFiles := files;
      var draggedItem := newFiles[from];
      newFiles := newFiles[..from] + newFiles[from + 1..];
      newFiles := newFiles[..index] + [draggedItem] + newFiles[index..];
      MovedIsRemoveThenInsert(files, from, index);
      MovedKeepsIdsUnique(files, from, index, nextId);
      files := newFiles;
      draggedIndex := Some(index);
    }

    method ItemDragEnd()
      modifies this`draggedIndex
      ensures draggedIndex == None
    {
      draggedIndex := None;
    }
  }
}

/**
 * The drop-zone uploader: for each dropped file, in order, it writes the file
 * to storage under a generated name that keeps the original extension and then
 * inserts a `files` row describing it; the first failure ends the run with an
 * error message, and only a run without failure refreshes the page.
 */
module FileUploader {
  import opened Base

  /** A dropped `File`. */
  datatype DroppedFile = DroppedFile(name: string, size: nat, mimeType: string)

  /** The row inserted into `files` for an uploaded file. */
  datatype FileRecord = FileRecord(name: string, storagePath: string, size: nat, mimeType: string)

  /** The backend calls of a run, in order. */
  datatype UploadCall = PutObject(path: string) | InsertRow(row: FileRecord)

  /** The outcome of one run: the calls issued, and the error that stopped it. */
  datatype DropRun = DropRun(calls: seq<UploadCall>, failure: Option<ErrorValue>)

  const FallbackMessage := "Error uploading file"

  /** `name.split('.').pop()`: the text after the last `.`, or the whole name
      when it has none. */
  function Extension(name: string): string
    decreases |name|
  {
    if name == [] then []
    else if name[|name| - 1] == '.' then []
    else Extension(name[..|name| - 1]) + [name[|name| - 1]]
  }

  /** The extension is a dot-free suffix of the name, preceded by a dot when
      the name has one and equal to the whole name otherwise. */
  lemma {:induction false} ExtensionSpec(name: string)
    ensures '.' !in Extension(name)
    ensures '.' !in name ==> Extension(name) == name
    ensures '.' in name ==> |Extension(name)| < |name| && name[|name| - |Extension(name)| - 1] == '.'
    ensures name[|name| - |Extension(name)|..] == Extension(name)
    decreases |name|
  {
    if name != [] && name[|name| - 1] != '.' {
      var init := name[..|name| - 1];
      assert name == init + [name[|name| - 1]];
      ExtensionSpec(init);
    }
  }

  /** The generated storage name: `stamp` stands for the clock-and-random
      prefix `<Date.now()>_<random>`, followed by the original extension. */
  function StorageName(stamp: string, f: DroppedFile): string
  {
    stamp + "." + Extension(f.name)
  }

  /** The extension of a name ending in `.` and a dot-free text is that text. */
  lemma {:induction false} ExtensionAfterDot(prefix: string, ext: string)
    requires '.' !in ext
    ensures Extension(prefix + "." + ext) == ext
    decreases |ext|
  {
    if ext != [] {
      var init := ext[..|ext| - 1];
      assert prefix + "." + ext == (prefix + "." + init) + [ext[|ext| - 1]];
      assert (prefix + "." + ext)[..|prefix + "." + ext| - 1] == prefix + "." + init;
      ExtensionAfterDot(prefix, init);
      assert init + [ext[|ext| - 1]] == ext;
    }
  }

  /** The extension of the generated name is that of the original. */
  lemma StorageNameKeepsExtension(stamp: string, f: DroppedFile)
    ensures Extension(StorageName(stamp, f)) == Extension(f.name)
  {
    ExtensionSpec(f.name);
    ExtensionAfterDot(stamp, Extension(f.name));
  }

  /** The row recorded for a file stored at `path`. */
  function Record(f: DroppedFile, path: string): (r: FileRecord)
    ensures r.name == f.name && r.size == f.size && r.mimeType == f.mimeType
    ensures r.storagePath == path
  {
    FileRecord(f.name, path, f.size, f.mimeType)
  }

  /** One dropped file with what the environment supplies for it: the
      clock-and-random `stamp` of its storage name and the replies to its
      storage write (`stored`) and to its row insert (`inserted`). */
  datatype DropItem = DropItem(file: DroppedFile, stamp: string, stored: Outcome, inserted: Outcome)

  function PathOf(d: DropItem): string
  {
    StorageName(d.stamp, d.file)
  }

  /** The two calls for a file that is stored and recorded. */
  function FileCalls(d: DropItem): seq<UploadCall>
  {
    [PutObject(PathOf(d)), InsertRow(Record(d.file, PathOf(d)))]
  }

  /** The run over the dropped files, in order, stopping at the first failure. */
  function Run(items: seq<DropItem>): DropRun
    decreases |items|
  {
    if items == [] then DropRun([], None)
    else if items[0].stored.Fail? then DropRun([PutObject(PathOf(items[0]))], Some(items[0].stored.error))
    else if items[0].inserted.Fail? then DropRun(FileCalls(items[0]), Some(items[0].inserted.error))
    else
      var rest := Run(items[1..]);
      DropRun(FileCalls(items[0]) + rest.calls, rest.failure)
  }

  /** The calls of the first `k` files when all of them succeed. */
  function Completed(items: seq<DropItem>, k: nat): (calls: seq<UploadCall>)
    requires k <= |items|
    ensures |calls| == 2 * k
  {
    if k == 0 then [] else Completed(items, k - 1) + FileCalls(items[k - 1])
  }

  /** In the calls of completed files, file `j` is stored (call `2j`) and then
      recorded (call `2j + 1`) with a row copying its name, size and type. */
  lemma {:induction false} CompletedOrder(items: seq<DropItem>, k: nat, j: nat)
    requires j < k <= |items|
    ensures Completed(items, k)[2 * j] == PutObject(PathOf(items[j]))
    ensures Completed(items, k)[2 * j + 1] == InsertRow(Record(items[j].file, PathOf(items[j])))
    decreases k
  {
    if j < k - 1 {
      CompletedOrder(items, k - 1, j);
    }
  }

  /** Both calls of each of the first `k` files succeeded. */
  predicate AllPassed(items: seq<DropItem>, k: nat)
    requires k <= |items|
  {
    forall j :: 0 <= j < k ==> items[j].stored.Pass? && items[j].inserted.Pass?
  }

  /** `Completed` of a list is the first file's calls followed by `Completed`
      of the rest. */
  lemma {:induction false} CompletedShift(items: seq<DropItem>, k: nat)
    requires k < |items|
    ensures Completed(items, k + 1) == FileCalls(items[0]) + Completed(items[1..], k)
    decreases k
  {
    if k > 0 {
      CompletedShift(items, k - 1);
      var rest := items[1..];
      assert rest[k - 1] == items[k];
      calc {
        Completed(items, k + 1);
        Completed(items, k) + FileCalls(items[k]);
        (FileCalls(items[0]) + Completed(rest, k - 1)) + FileCalls(items[k]);
        FileCalls(items[0]) + (Completed(rest, k - 1) + FileCalls(rest[k - 1]));
        FileCalls(items[0]) + Completed(rest, k);
      }
    }
  }

  /** The run in closed form: the files before the first failure are stored and
      recorded in order, the failing file gets only the calls up to its
      failing one, and no later file is touched. With no failure every file is
      processed. */
  lemma {:induction false} RunShape(items: seq<DropItem>, k: nat)
    requires k <= |items| && AllPassed(items, k)
    ensures k == |items| ==> Run(items) == DropRun(Completed(items, k), None)
    ensures k < |items| && items[k].stored.Fail? ==>
      Run(items) == DropRun(Completed(items, k) + [PutObject(PathOf(items[k]))], Some(items[k].stored.error))
    ensures k < |items| && items[k].stored.Pass? && items[k].inserted.Fail? ==>
      Run(items) == DropRun(Completed(items, k + 1), Some(items[k].inserted.error))
    decreases |items|
  {
    if items != [] && k > 0 {
      RunShape(items[1..], k - 1);
      CompletedShift(items, k - 1);
      if k < |items| {
        CompletedShift(items, k);
      }
    }
  }

  /** The run from file `i` on, one step unfolded. */
  lemma RunUnfold(items: seq<DropItem>, i: nat)
    requires i < |items|
    ensures var d := items[i];
      Run(items[i..]) ==
        if d.stored.Fail? then DropRun([PutObject(PathOf(d))], Some(d.stored.error))
        else if d.inserted.Fail? then DropRun(FileCalls(d), Some(d.inserted.error))
        else DropRun(FileCalls(d) + Run(items[i + 1..]).calls, Run(items[i + 1..]).failure)
  {
    assert items[i..][1..] == items[i + 1..];
  }

  /** The loop of `onDrop` over the dropped files: each file is written to
      storage and then recorded, and the first failing call ends the loop. */
  method UploadAll(items: seq<DropItem>) returns (run: DropRun)
    ensures run == Run(items)
  {
    var calls: seq<UploadCall> := [];
    var i := 0;
    while i < |items|
      invariant 0 <= i <= |items|
      invariant Run(items) == DropRun(calls + Run(items[i..]).calls, Run(items[i..]).failure)
    {
      var d := items[i];
      RunUnfold(items, i);
      var path := StorageName(d.stamp, d.file);
      if d.stored.Fail? {
        return DropRun(calls + [PutObject(path)], Some(d.stored.error));
      }
      if d.inserted.Fail? {
        return DropRun(calls + FileCalls(d), Some(d.inserted.error));
      }
      assert (calls + FileCalls(d)) + Run(items[i + 1..]).calls == calls + Run(items[i..]).calls;
      calls := calls + FileCalls(d);
      i := i + 1;
    }
    assert items[i..] == [];
    run := DropRun(calls, None);
  }

  class Uploader {
    var uploading: bool
    var error: string
    /** How many times `router.refresh()` was called. */
    var refreshes: nat

    constructor ()
      ensures !uploading && error == "" && refreshes == 0
    {
      uploading := false;
      error := "";
      refreshes := 0;
    }

    /** `onDrop`: the upload loop, then the error message of the failure that
        stopped it, or a page refresh when none did. Returns the calls issued. */
    method OnDrop(items: seq<DropItem>) returns (calls: seq<UploadCall>)
      modifies this
      ensures calls == Run(items).calls
      ensures Run(items).failure.None? ==> error == "" && refreshes == old(refreshes) + 1
      ensures Run(items).failure.Some? ==>
        (error == MessageOr(Run(items).failure.value, FallbackMessage) && refreshes == old(refreshes))
      ensures !uploading
    {
      uploading := true;
      error := "";
      var run := UploadAll(items);
      calls := run.calls;
      if run.failure.Some? {
        error := MessageOr(run.failure.value, FallbackMessage);
      } else {
        refreshes := refreshes + 1;
      }
      uploading := false;
    }
  }
}

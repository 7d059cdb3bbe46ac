/**
 * The file list of the file manager: a local copy of the `files` table kept in
 * step by the realtime channel, and the two-step delete of the file the user
 * confirmed (storage object first, then the database row, then the local copy).
 */
module FileList {
  import opened Base
  import opened Lists
  import opened Mirror

  /** A row of the `files` table. */
  datatype FileRow = FileRow(id: string, name: string, size: nat, mimeType: string,
                             storagePath: string, createdAt: string)

  function FileId(f: FileRow): string { f.id }

  /** The backend calls `handleDelete` issues, in order. */
  datatype BackendCall = RemoveObject(path: string) | DeleteRow(id: string)

  class Panel {
    var files: seq<FileRow>
    /** The file awaiting the confirmation dialog's answer. */
    var deleteFile: Option<FileRow>
    var loading: bool
    /** How many times the parent's `onUpdate` callback was invoked. */
    var updates: nat

    constructor (initialFiles: seq<FileRow>)
      ensures files == initialFiles && deleteFile.None? && !loading && updates == 0
    {
      files := initialFiles;
      deleteFile := None;
      loading := false;
      updates := 0;
    }

    /** The realtime handler: an insert is put in front with no cap, a delete
        drops every row with that id; both notify the parent. Other events
        change nothing. */
    method OnChange(ch: Change<FileRow>)
      modifies this`files, this`updates
      ensures files == Apply(old(files), ch, FileId, None)
      ensures ch.Inserted? ==> files == [ch.row] + old(files) && |files| == |old(files)| + 1
      ensures ch.Deleted? ==> forall f :: f in files <==> f in old(files) && f.id != ch.id
      ensures updates == if ch.Updated? then old(updates) else old(updates) + 1
    {
      match ch {
        case Inserted(row) =>
          files := [row] + files;
          updates := updates + 1;
        case Deleted(id) =>
          files := WithoutId(files, id, FileId);
          updates := updates + 1;
        case Updated =>
      }
    }

    /** The confirmation dialog is opened for `f`. */
    method AskDelete(f: FileRow)
      modifies this`deleteFile
      ensures deleteFile == Some(f)
    {
      deleteFile := Some(f);
    }

    /** `handleDelete`: `storage` and `db` are the replies of the storage
        removal and of the row delete. Returns the calls issued. */
    method HandleDelete(storage: Outcome, db: Outcome) returns (calls: seq<BackendCall>)
      modifies this`files, this`deleteFile, this`loading, this`updates
      ensures old(deleteFile).None? ==>
        (calls == [] && files == old(files) && deleteFile == old(deleteFile)
         && loading == old(loading) && updates == old(updates))
      ensures old(deleteFile).Some? ==> !loading
      ensures old(deleteFile).Some? && storage.Fail? ==>
        (calls == [RemoveObject(old(deleteFile).value.storagePath)]
         && files == old(files) && deleteFile == old(deleteFile) && updates == old(updates))
      ensures old(deleteFile).Some? && storage.Pass? ==>
        calls == [RemoveObject(old(deleteFile).value.storagePath), DeleteRow(old(deleteFile).value.id)]
      ensures old(deleteFile).Some? && storage.Pass? && db.Fail? ==>
        (files == old(files) && deleteFile == old(deleteFile) && updates == old(updates))
      ensures old(deleteFile).Some? && storage.Pass? && db.Pass? ==>
        (files == WithoutId(old(files), old(deleteFile).value.id, FileId)
         && deleteFile.None? && updates == old(updates) + 1)
      ensures files != old(files) ==> storage.Pass? && db.Pass?
    {
      calls := [];
      if deleteFile.None? {
        return;
      }
      var target := deleteFile.value;
      loading := true;
      calls := calls + [RemoveObject(target.storagePath)];
      if storage.Pass? {
        calls := calls + [DeleteRow(target.id)];
        if db.Pass? {
          files := WithoutId(files, target.id, FileId);
          deleteFile := None;
          updates := updates + 1;
        }
      }
      loading := false;
    }
  }

  /** The calls `handleDelete` issues for a pending file, as a function of the
      storage reply. */
  function DeleteTrace(f: FileRow, storage: Outcome): (calls: seq<BackendCall>)
    ensures |calls| >= 1 && calls[0] == RemoveObject(f.storagePath)
    ensures DeleteRow(f.id) in calls <==> storage.Pass?
  {
    if storage.Pass? then [RemoveObject(f.storagePath), DeleteRow(f.id)]
    else [RemoveObject(f.storagePath)]
  }

  /** The database row is deleted only after its storage object was removed:
      in any trace `handleDelete` can issue, a `DeleteRow` is preceded by a
      `RemoveObject` of the same file. */
  predicate StorageBeforeRow(calls: seq<BackendCall>, f: FileRow)
  {
    forall j :: 0 <= j < |calls| && calls[j] == DeleteRow(f.id) ==>
      exists i :: 0 <= i < j && calls[i] == RemoveObject(f.storagePath)
  }

  /** The trace of `DeleteTrace` respects that order. */
  lemma DeleteOrder(f: FileRow, storage: Outcome)
    ensures StorageBeforeRow(DeleteTrace(f, storage), f)
  {
    var calls := DeleteTrace(f, storage);
    if |calls| == 2 {
      assert calls[0] == RemoveObject(f.storagePath);
    }
  }

  /** A caller's view: a file asked for deletion is removed from the list with
      the calls of `DeleteTrace`, and only when both replies are successes. */
  method DeleteFlow(p: Panel, f: FileRow, storage: Outcome, db: Outcome) returns (calls: seq<BackendCall>)
    modifies p
    ensures calls == DeleteTrace(f, storage)
    ensures StorageBeforeRow(calls, f)
    ensures storage.Pass? && db.Pass? ==> p.files == WithoutId(old(p.files), f.id, FileId) && p.deleteFile.None?
    ensures !(storage.Pass? && db.Pass?) ==> p.files == old(p.files) && p.deleteFile == Some(f)
  {
    p.AskDelete(f);
    calls := p.HandleDelete(storage, db);
    DeleteOrder(f, storage);
  }
}

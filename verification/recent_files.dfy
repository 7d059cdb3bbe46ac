/**
 * The dashboard's recent-files widget: at most five rows of the `files`
 * table, newest first, kept in step by the realtime channel.
 */
module RecentFiles {
  import opened Base
  import opened Mirror

  datatype RecentFile = RecentFile(id: string, name: string, mimeType: string, size: nat, createdAt: string)

  function RecentFileId(f: RecentFile): string { f.id }

  class Widget {
    var files: seq<RecentFile>

    constructor (initialFiles: seq<RecentFile>)
      ensures files == initialFiles
    {
      files := initialFiles;
    }

    /** The realtime handler: an insert is put in front and the list cut to
        five rows, a delete drops every row with that id, other events change
        nothing. */
    method OnChange(ch: Change<RecentFile>)
      modifies this`files
      ensures files == Apply(old(files), ch, RecentFileId, Some(RecentCap))
      ensures ch.Inserted? ==>
        (files[0] == ch.row && |files| == if |old(files)| + 1 <= RecentCap then |old(files)| + 1 else RecentCap)
      ensures ch.Deleted? ==> files == WithoutId(old(files), ch.id, RecentFileId)
      ensures ch.Updated? ==> files == old(files)
      ensures |old(files)| <= RecentCap ==> |files| <= RecentCap
    {
      InsertSpec(files, if ch.Inserted? then ch.row else RecentFile("", "", "", 0, ""),
                 RecentFileId, Some(RecentCap));
      if |files| <= RecentCap {
        ApplyBounded(files, ch, RecentFileId, RecentCap);
      }
      match ch {
        case Inserted(row) =>
          files := Take([row] + files, RecentCap);
        case Deleted(id) =>
          files := WithoutId(files, id, RecentFileId);
        case Updated =>
      }
    }
  }
}

/**
 * The file manager page: it groups the fetched files into three buckets keyed
 * `document`, `spreadsheet` and `other` by the shared MIME-type classifier,
 * and draws each file with the icon of its kind.
 */
module FilesPage {
  import opened Base
  import opened Lists
  import opened FileKinds
  import opened FileList

  predicate IsSpreadsheetFile(f: FileRow) { Classify(f.mimeType) == Spreadsheet }
  predicate IsDocumentFile(f: FileRow) { Classify(f.mimeType) == Document }
  predicate IsOtherFile(f: FileRow) { Classify(f.mimeType) == Other }

  /** The dictionary key of each kind's bucket. */
  function BucketKey(k: Kind): string
  {
    match k
    case Spreadsheet => "spreadsheet"
    case Document => "document"
    case Other => "other"
  }

  const BucketKeys: set<string> := {"document", "spreadsheet", "other"}

  /** `getFilesByType`: one pass over the files, pushing each onto the bucket
      of its kind. Every bucket is the files of that kind in input order, and
      all three keys are present even when there are no files. */
  method FilesByType(files: seq<FileRow>) returns (byType: map<string, seq<FileRow>>)
    ensures byType.Keys == BucketKeys
    ensures byType["spreadsheet"] == Filter(files, IsSpreadsheetFile)
    ensures byType["document"] == Filter(files, IsDocumentFile)
    ensures byType["other"] == Filter(files, IsOtherFile)
  {
    byType := map["document" := [], "spreadsheet" := [], "other" := []];
    var i := 0;
    while i < |files|
      invariant 0 <= i <= |files|
      invariant byType.Keys == BucketKeys
      invariant byType["spreadsheet"] == Filter(files[..i], IsSpreadsheetFile)
      invariant byType["document"] == Filter(files[..i], IsDocumentFile)
      invariant byType["other"] == Filter(files[..i], IsOtherFile)
    {
      var file := files[i];
      assert files[..i + 1] == files[..i] + [file];
      BucketStep(files[..i], file);
      if IsSpreadsheetType(file.mimeType) {
        byType := byType["spreadsheet" := byType["spreadsheet"] + [file]];
      } else if IsDocumentType(file.mimeType) {
        byType := byType["document" := byType["document"] + [file]];
      } else {
        byType := byType["other" := byType["other"] + [file]];
      }
      i := i + 1;
    }
    assert files[..|files|] == files;
  }

  /** Appending one file extends exactly the bucket of its kind. */
  lemma BucketStep(prefix: seq<FileRow>, f: FileRow)
    ensures Filter(prefix + [f], IsSpreadsheetFile)
      == Filter(prefix, IsSpreadsheetFile) + (if IsSpreadsheetFile(f) then [f] else [])
    ensures Filter(prefix + [f], IsDocumentFile)
      == Filter(prefix, IsDocumentFile) + (if IsDocumentFile(f) then [f] else [])
    ensures Filter(prefix + [f], IsOtherFile)
      == Filter(prefix, IsOtherFile) + (if IsOtherFile(f) then [f] else [])
  {
    BucketsKeepOrder(prefix, [f]);
  }

  /** The three buckets together hold every file once: their sizes add up to
      the number of files. */
  lemma {:induction false} BucketSizes(files: seq<FileRow>)
    ensures |Filter(files, IsSpreadsheetFile)| + |Filter(files, IsDocumentFile)|
          + |Filter(files, IsOtherFile)| == |files|
  {
    if files != [] {
      BucketSizes(files[1..]);
    }
  }

  /** A file is in the bucket of its kind and in neither of the other two;
      its bucket is the one whose icon the page draws for it. */
  lemma ExactlyOneBucket(files: seq<FileRow>, f: FileRow)
    requires f in files
    ensures f in Filter(files, IsSpreadsheetFile) <==> Classify(f.mimeType) == Spreadsheet
    ensures f in Filter(files, IsDocumentFile) <==> Classify(f.mimeType) == Document
    ensures f in Filter(files, IsOtherFile) <==> Classify(f.mimeType) == Other
    ensures PageIcon(f.mimeType) == IconOf(Classify(f.mimeType))
  {
    FilterMembers(files, IsSpreadsheetFile);
    FilterMembers(files, IsDocumentFile);
    FilterMembers(files, IsOtherFile);
  }

  /** The buckets of a concatenation are the buckets of the parts, one after
      the other: files keep their input order within a bucket. */
  lemma BucketsKeepOrder(a: seq<FileRow>, b: seq<FileRow>)
    ensures Filter(a + b, IsSpreadsheetFile) == Filter(a, IsSpreadsheetFile) + Filter(b, IsSpreadsheetFile)
    ensures Filter(a + b, IsDocumentFile) == Filter(a, IsDocumentFile) + Filter(b, IsDocumentFile)
    ensures Filter(a + b, IsOtherFile) == Filter(a, IsOtherFile) + Filter(b, IsOtherFile)
  {
    FilterAppend(a, b, IsSpreadsheetFile);
    FilterAppend(a, b, IsDocumentFile);
    FilterAppend(a, b, IsOtherFile);
  }
}

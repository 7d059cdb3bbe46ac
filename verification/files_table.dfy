/**
 * The upload guard of the recent-files table: a picked file is refused when it
 * is larger than five mebibytes or is neither a PNG image nor a PDF, and is
 * otherwise written to storage under its own name, replacing any object there.
 */
module FilesTable {

  /** The browser's `File`: its name, size in bytes and MIME type. */
  datatype PickedFile = PickedFile(name: string, size: nat, mimeType: string)

  /** `MAX_FILE_SIZE`: 5 MiB. */
  const MaxFileSize: nat := 1024 * 1024 * 5

  /** `ALLOWED_TYPES` */
  const AllowedTypes: seq<string> := ["image/png", "application/pdf"]

  const SizeMessage := "File size exceeds 5MB limit"
  const TypeMessage := "Only PNG and PDF files allowed"

  /** What `handleFileUpload` does with a file: alert and stop, or upload it to
      `path` (with `upsert` set). */
  datatype UploadStep = Refuse(alert: string) | Upload(path: string, upsert: bool)

  /** `handleFileUpload`, up to the (abstracted) storage call. */
  function HandleFileUpload(f: PickedFile): (step: UploadStep)
    ensures f.size > MaxFileSize ==> step == Refuse(SizeMessage)
    ensures f.size <= MaxFileSize && f.mimeType !in AllowedTypes ==> step == Refuse(TypeMessage)
    ensures step.Upload? <==> f.size <= MaxFileSize && f.mimeType in AllowedTypes
    ensures step.Upload? ==> step == Upload(f.name, true)
  {
    if f.size > MaxFileSize then Refuse(SizeMessage)
    else if f.mimeType !in AllowedTypes then Refuse(TypeMessage)
    else Upload(f.name, true)
  }

  /** The limit is inclusive: a file of exactly 5 MiB passes the size check and
      one byte more does not. */
  lemma LimitIsInclusive(name: string, mimeType: string)
    ensures HandleFileUpload(PickedFile(name, 5242880, "application/pdf")).Upload?
    ensures HandleFileUpload(PickedFile(name, 5242881, mimeType)) == Refuse(SizeMessage)
  {
  }

  /** Only the two listed types are ever uploaded. */
  lemma OnlyPngAndPdf(f: PickedFile)
    requires HandleFileUpload(f).Upload?
    ensures f.mimeType == "image/png" || f.mimeType == "application/pdf"
  {
  }
}

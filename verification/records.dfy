/** The records the tracker keeps (assignments, submissions, users) and the
    file guard shared by the upload field and the submit handler. */
module Records {
  import opened Wrappers

  /** The only media type a submission may carry. */
  const PdfType: string := "application/pdf"

  /** Largest accepted file, in bytes (2 MiB). */
  const MaxFileSize: nat := 2 * 1024 * 1024

  datatype Assignment = Assignment(
    id: string,
    title: string,
    description: string,
    deadline: string,
    driveLink: string,
    createdBy: string)

  /** A file as the browser's file picker describes it. */
  datatype FileInput = FileInput(name: string, size: nat, mediaType: string)

  /** The file fields a submission carries once the file has been read; the
      content is the data URL the reader produced. */
  datatype Attachment = Attachment(fileName: string, fileSize: nat, fileType: string, fileData: string)

  datatype Submission = Submission(
    id: string,
    assignmentId: string,
    studentId: string,
    submittedAt: string,
    file: Option<Attachment>)

  datatype User = User(id: string, name: string, email: string, password: string)

  datatype Role = Admin | Student

  /** The messages the application shows with `alert`. */
  datatype Alert =
    | MissingTitleOrDeadline
    | MissingDeadline
    | OnlyPdf
    | FileTooLarge
    | NoFileSelected
    | InvalidCredentials
    | StorageError

  /** The alert a picked file triggers: the type is checked before the size. */
  function FileAlert(f: FileInput): Option<Alert> {
    if f.mediaType != PdfType then Some(OnlyPdf)
    else if f.size > MaxFileSize then Some(FileTooLarge)
    else None
  }

  /** Both guards let `file` through; no file at all passes too. */
  predicate FileOk(file: Option<FileInput>) {
    file.None? || FileAlert(file.value).None?
  }

  /** The acceptance rule in plain terms, and the 2 MiB boundary: a PDF of
      exactly the cap passes and one byte more fails. */
  lemma FileRule(f: FileInput)
    ensures FileAlert(f).None? <==> f.mediaType == PdfType && f.size <= 2097152
    ensures f.mediaType == PdfType && f.size == 2097152 ==> FileAlert(f).None?
    ensures f.mediaType == PdfType && f.size == 2097153 ==> FileAlert(f) == Some(FileTooLarge)
    ensures f.mediaType != PdfType ==> FileAlert(f) == Some(OnlyPdf)
  {
  }
}

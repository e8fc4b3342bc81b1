/** The checks the `/upload` handler runs before it touches the file. */
module Upload {
  import opened Basics

  /** What the upload middleware reports about one uploaded file. */
  datatype UploadedFile = UploadedFile(name: string, mimetype: string, size: nat)

  /**
   * What the middleware puts under one form field: the file itself, or, when
   * the field was sent more than once, an array of the files, which has no
   * `mimetype` or `size` of its own.
   */
  datatype Field = One(file: UploadedFile) | Several(files: seq<UploadedFile>)

  /** `req.files`: absent, or the uploaded files by form field name. */
  datatype Request = Request(files: Option<map<string, Field>>)

  /** `5 * 1024 * 1024` bytes. */
  const MaxSize: nat := 5 * 1024 * 1024

  const PdfMimeType := "application/pdf"

  /** The form field the handler reads the file from. */
  const FileField := "pdfFile"

  datatype Rejection = NoFiles | NotPdf | TooLarge

  /**
   * The outcome of the checks. `Threw` is the case where files were uploaded
   * but none under `pdfFile`: reading `mimetype` of undefined throws, and the
   * request fails without any further step.
   */
  datatype Verdict = Accepted(file: UploadedFile) | Rejected(reason: Rejection) | Threw

  /** The text of the 400 response for each rejection. */
  function RejectionMessage(r: Rejection): string {
    match r
    case NoFiles => "No files were uploaded."
    case NotPdf => "Only PDF files are allowed."
    case TooLarge => "File size exceeds the 5MB limit."
  }

  predicate HasFiles(req: Request) {
    req.files.Some? && |req.files.value| != 0
  }

  /** `pdfFile.mimetype === 'application/pdf'`; an array's `mimetype` is undefined. */
  predicate IsPdf(v: Field) {
    v.One? && v.file.mimetype == PdfMimeType
  }

  /** The checks in the handler's order: files present, then MIME type, then size. */
  function Validate(req: Request): (v: Verdict)
    ensures v.Accepted? ==> req.files.Some? && FileField in req.files.value
                            && req.files.value[FileField] == One(v.file)
    ensures v == Threw ==> req.files.Some? && FileField !in req.files.value
  {
    if !HasFiles(req) then Rejected(NoFiles)
    else if FileField !in req.files.value then Threw
    else
      var v := req.files.value[FileField];
      if !IsPdf(v) then Rejected(NotPdf)
      else if v.file.size > MaxSize then Rejected(TooLarge)
      else Accepted(v.file)
  }

  /**
   * A request is accepted exactly when it has files, one of them under
   * `pdfFile`, of type application/pdf and at most 5 MiB; the accepted file
   * is that one.
   */
  lemma AcceptedExactly(req: Request)
    ensures Validate(req).Accepted? <==>
      HasFiles(req) && FileField in req.files.value
      && req.files.value[FileField].One?
      && req.files.value[FileField].file.mimetype == PdfMimeType
      && req.files.value[FileField].file.size <= MaxSize
    ensures Validate(req).Accepted? ==> req.files.value[FileField] == One(Validate(req).file)
  {
  }

  /**
   * Rejections come in the handler's order: missing files win over
   * everything, a wrong type wins over the size, and the size is looked at
   * only for a PDF.
   */
  lemma RejectionOrder(req: Request)
    ensures Validate(req) == Rejected(NoFiles) <==> !HasFiles(req)
    ensures Validate(req) == Rejected(NotPdf) <==>
      HasFiles(req) && FileField in req.files.value && !IsPdf(req.files.value[FileField])
    ensures Validate(req) == Rejected(TooLarge) <==>
      HasFiles(req) && FileField in req.files.value && IsPdf(req.files.value[FileField])
      && req.files.value[FileField].file.size > MaxSize
    ensures Validate(req) == Threw <==> HasFiles(req) && FileField !in req.files.value
  {
  }

  /** The size limit is inclusive: 5242880 bytes pass, 5242881 do not. */
  lemma SizeLimitBoundary(name: string)
    ensures MaxSize == 5242880
    ensures Validate(Request(Some(map[FileField := One(UploadedFile(name, PdfMimeType, 5242880))]))).Accepted?
    ensures Validate(Request(Some(map[FileField := One(UploadedFile(name, PdfMimeType, 5242881))]))) == Rejected(TooLarge)
  {
  }

  /**
   * Sending `pdfFile` more than once is refused as "not a PDF", even when
   * every one of the files is a small PDF: the handler reads `mimetype` of the
   * array, not of its elements.
   */
  lemma RepeatedFieldIsNotPdf(req: Request)
    requires req.files.Some? && FileField in req.files.value && req.files.value[FileField].Several?
    ensures Validate(req) == Rejected(NotPdf)
  {
  }
}

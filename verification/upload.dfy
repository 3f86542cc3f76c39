/** `upload_pdf`, the handler of `POST /api/upload-pdf`: three validation
    checks in a fixed order, each answered with 400; then the file is saved
    under its sanitised name in the upload folder, flattened into the
    processed folder under the prefix `aplanado_`, and the outcome reported
    as 200 or 500.

    `werkzeug.utils.secure_filename` is a parameter `secure`; nothing is
    assumed about it. */
module Upload {

  import opened Options
  import opened Paths
  import opened FileSystem
  import opened Extension
  import opened Flatten
  import opened Http

  /** Name of the multipart field that carries the document. */
  const FieldName: string := "pdf"
  /** Prefix of the flattened file's name. */
  const OutputPrefix: string := "aplanado_"
  /** Route prefix of download links. */
  const DownloadRoute: string := "/api/download/"
  /** Resolution the success response reports (the renderer is asked for `RenderDpi`). */
  const ReportedDpi: int := 200

  const NoFilePartText: string := "No se encontró el archivo PDF"
  const NoFileSelectedText: string := "No se seleccionó archivo"
  const OnlyPdfText: string := "Solo se permiten PDF"
  const FlattenFailedText: string := "Error al aplanar el PDF"
  const FlattenedText: string := "PDF aplanado correctamente a 200 DPI"

  /** One file part of a multipart request: its declared name and its bytes. */
  datatype FilePart = FilePart(filename: string, content: Bytes)

  /** `request.files`: the file parts by field name. */
  datatype Request = Request(files: map<string, FilePart>)

  /** A response together with the file system it leaves behind. */
  datatype Exchange = Exchange(response: Response, fs: FS)

  /** The request passes all three checks of the handler. */
  predicate Accepted(req: Request) {
    && FieldName in req.files
    && req.files[FieldName].filename != ""
    && AllowedFile(req.files[FieldName].filename)
  }

  /** Where the upload is saved: `os.path.join(UPLOAD_FOLDER, filename)`. */
  function InputPath(sanitized: string): Path {
    Join(UploadFolder, sanitized)
  }

  /** `f"aplanado_{filename}"`, the name the result is stored and offered under. */
  function OutputName(sanitized: string): string {
    OutputPrefix + sanitized
  }

  /** Where the result is written: `os.path.join(PROCESSED_FOLDER, output_filename)`. */
  function OutputPath(sanitized: string): Path {
    Join(ProcessedFolder, OutputName(sanitized))
  }

  /** The result path lies in the processed folder, is not the upload path and
      is not named like a temporary page, and neither is the upload path. */
  lemma StoragePathsDistinct(sanitized: string)
    ensures OutputPath(sanitized) == ProcessedFolder + "/" + OutputName(sanitized)
    ensures InputPath(sanitized) != OutputPath(sanitized)
    ensures ParseTempPath(InputPath(sanitized)).None?
    ensures ParseTempPath(OutputPath(sanitized)).None?
  {
    JoinFolder(ProcessedFolder, OutputName(sanitized));
    var input := InputPath(sanitized);
    assert input[0] == 'u' || input[0] == '/';
    NotTempPath(input);
    NotTempPath(OutputPath(sanitized));
  }

  /** The handler as written. */
  function UploadPdf(secure: string -> string, fx: Effects, fs: FS, req: Request): (r: Exchange)
    // the three checks, in order, each with its own message; none touches the disk
    ensures FieldName !in req.files ==> r == Exchange(ErrorJson(400, NoFilePartText), fs)
    ensures FieldName in req.files && req.files[FieldName].filename == "" ==>
              r == Exchange(ErrorJson(400, NoFileSelectedText), fs)
    ensures FieldName in req.files && req.files[FieldName].filename != "" && !AllowedFile(req.files[FieldName].filename) ==>
              r == Exchange(ErrorJson(400, OnlyPdfText), fs)
    ensures r.response.Code() == 400 <==> !Accepted(req)
    // an accepted upload that cannot be saved: 500 with the exception's text, nothing written
    ensures Accepted(req) ==>
              var name := secure(req.files[FieldName].filename);
              fx.writeError(InputPath(name)).Some? ==>
                r == Exchange(ErrorJson(500, fx.writeError(InputPath(name)).value), fs)
    // otherwise the flatten step decides between 200 and 500, the disk is what it leaves
    ensures Accepted(req) ==>
              var part := req.files[FieldName];
              var name := secure(part.filename);
              fx.writeError(InputPath(name)).None? ==>
                var run := FlattenPdf(fx, fs[InputPath(name) := part.content], InputPath(name), OutputPath(name));
                && r.fs == run.fs
                && (run.ok ==> r.response == FlattenedJson(FlattenedText, DownloadRoute + OutputName(name), ReportedDpi, "OK"))
                && (!run.ok ==> r.response == ErrorJson(500, FlattenFailedText))
    // after a success the upload and the result are both on disk
    ensures r.response.FlattenedJson? ==>
              var part := req.files[FieldName];
              var name := secure(part.filename);
              && InputPath(name) in r.fs && r.fs[InputPath(name)] == part.content
              && OutputPath(name) in r.fs
  {
    if FieldName !in req.files then Exchange(ErrorJson(400, NoFilePartText), fs)
    else
      var part := req.files[FieldName];
      if part.filename == "" then Exchange(ErrorJson(400, NoFileSelectedText), fs)
      else if !AllowedFile(part.filename) then Exchange(ErrorJson(400, OnlyPdfText), fs)
      else
        var name := secure(part.filename);
        var input := InputPath(name);
        match fx.writeError(input)
        case Some(message) => Exchange(ErrorJson(500, message), fs)
        case None =>
          var stored := fs[input := part.content];
          StoragePathsDistinct(name);
          var run := FlattenPdf(fx, stored, input, OutputPath(name));
          if run.ok then
            Exchange(FlattenedJson(FlattenedText, DownloadRoute + OutputName(name), ReportedDpi, "OK"), run.fs)
          else
            Exchange(ErrorJson(500, FlattenFailedText), run.fs)
  }

  /** A rejected request is answered without consulting the sanitiser, the
      disk, the renderer or the encoder: any two environments give the same
      400 and leave the file system as it was. */
  lemma RejectedUploadIgnoresEnvironment(
    secure1: string -> string, fx1: Effects,
    secure2: string -> string, fx2: Effects,
    fs: FS, req: Request)
    requires !Accepted(req)
    ensures UploadPdf(secure1, fx1, fs, req) == UploadPdf(secure2, fx2, fs, req)
    ensures UploadPdf(secure1, fx1, fs, req).fs == fs
    ensures UploadPdf(secure1, fx1, fs, req).response.Code() == 400
  {
  }

  /** A missing `pdf` field is reported first, whatever other fields carry. */
  lemma MissingFieldFirst(secure: string -> string, fx: Effects, fs: FS, files: map<string, FilePart>)
    ensures UploadPdf(secure, fx, fs, Request(files - {FieldName})).response == ErrorJson(400, NoFilePartText)
  {
  }

  /** A successful upload links to the download route with the prefixed
      sanitised name and reports 200 dpi, while the renderer was asked for 300. */
  lemma SuccessReportsLinkAndDpi(secure: string -> string, fx: Effects, fs: FS, req: Request)
    ensures var r := UploadPdf(secure, fx, fs, req);
            r.response.FlattenedJson? ==>
              && Accepted(req)
              && r.response.downloadUrl == "/api/download/aplanado_" + secure(req.files[FieldName].filename)
              && r.response.dpi == 200
              && r.response.dpi != RenderDpi
              && r.response.status == "OK"
  {
    var r := UploadPdf(secure, fx, fs, req);
    if r.response.FlattenedJson? {
      assert r.response.Code() == 200;
      var part := req.files[FieldName];
      var name := secure(part.filename);
      assert fx.writeError(InputPath(name)).None?;
      var run := FlattenPdf(fx, fs[InputPath(name) := part.content], InputPath(name), OutputPath(name));
      assert run.ok;
      DownloadLink(name);
    }
  }

  lemma DownloadLink(name: string)
    ensures DownloadRoute + OutputName(name) == "/api/download/aplanado_" + name
  {
    assert DownloadRoute + OutputPrefix == "/api/download/aplanado_";
  }

}

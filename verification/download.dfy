/** `download_file(filename)`, the handler of `GET /api/download/<filename>`:
    the file `processed/<filename>` is sent as an attachment under the same
    name, or 404 when it does not exist. */
module Download {

  import opened Options
  import opened Paths
  import opened FileSystem
  import opened Flatten
  import opened Http
  import opened Upload

  const NotFoundText: string := "Archivo no encontrado"

  /** The handler as written. */
  function DownloadFile(fs: FS, filename: string): (r: Response)
    ensures r.Code() == 404 <==> Join(ProcessedFolder, filename) !in fs
    ensures Join(ProcessedFolder, filename) !in fs ==> r == ErrorJson(404, NotFoundText)
    ensures Join(ProcessedFolder, filename) in fs ==>
              r.Attachment? && r.content == fs[Join(ProcessedFolder, filename)] && r.downloadName == filename
  {
    var path := Join(ProcessedFolder, filename);
    if path !in fs then ErrorJson(404, NotFoundText)
    else Attachment(fs[path], filename)
  }

  /** Downloading never changes what it finds: it is a pure lookup, so asking
      twice, or after writes elsewhere, gives the same answer. */
  lemma DownloadDependsOnlyOnItsPath(fs1: FS, fs2: FS, filename: string)
    requires var path := Join(ProcessedFolder, filename);
             (path in fs1 <==> path in fs2) && (path in fs1 ==> fs1[path] == fs2[path])
    ensures DownloadFile(fs1, filename) == DownloadFile(fs2, filename)
  {
  }

  /** End to end: after a successful upload, the name in the download link
      fetches, as an attachment under that same name, exactly the document the
      encoder produced from the page images. */
  lemma UploadThenDownload(secure: string -> string, fx: Effects, fs: FS, req: Request)
    ensures var r := UploadPdf(secure, fx, fs, req);
            r.response.FlattenedJson? ==>
              && Accepted(req)
              && var part := req.files[FieldName];
                 var name := secure(part.filename);
                 var input := InputPath(name);
                 var run := FlattenPdf(fx, fs[input := part.content], input, OutputPath(name));
                 && run.ok
                 && r.response.downloadUrl == DownloadRoute + OutputName(name)
                 && DownloadFile(r.fs, OutputName(name))
                    == Attachment(fx.encode(run.call.value.view, run.call.value.paths).value, OutputName(name))
  {
    var r := UploadPdf(secure, fx, fs, req);
    if r.response.FlattenedJson? {
      assert r.response.Code() == 200;
      var part := req.files[FieldName];
      var name := secure(part.filename);
      var input := InputPath(name);
      assert fx.writeError(input).None?;
      var run := FlattenPdf(fx, fs[input := part.content], input, OutputPath(name));
      assert run.ok;
      StoragePathsDistinct(name);
    }
  }

}

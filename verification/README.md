# ARKI PDF server, `app.py`: a Dafny model

ARKI's backend is a small Flask service. A client posts a PDF to
`/api/upload-pdf`. The server checks the request and stores the file under
`uploads/`. It then "flattens" the file: every page is rendered to an image,
the images are saved as `temp_page_<i>.png`, and they are reassembled into a
new PDF at `processed/aplanado_<name>`. The client then fetches the result from
`/api/download/<name>`.

This project models that logic as pure functions over an abstract disk. The
disk is a map from path strings to file contents. Whatever the code calls but
does not contain is a parameter, bundled in `Flatten.Effects`:

- the renderer (`convert_from_path`);
- the PDF encoder (`img2pdf.convert`);
- whether the operating system accepts a write to a given path.

The sanitiser `secure_filename` is a plain `string -> string` parameter.

Files and modules:

| file | module | what it holds |
|---|---|---|
| `options.dfy` | `Options` | `Option`, used for "raised" versus "returned a value" |
| `decimal.dfy` | `Decimal` | `str(i)` for page indices and its inverse |
| `paths.dfy` | `Paths` | the folders, `os.path.join`, temporary page names and their parser |
| `filesystem.dfy` | `FileSystem` | the disk as a map, and the clean-up loop |
| `extension.dfy` | `Extension` | `allowed_file` |
| `flatten.dfy` | `Flatten` | `flatten_pdf_200dpi` |
| `http.dfy` | `Http` | the responses |
| `upload.dfy` | `Upload` | `upload_pdf` |
| `download.dfy` | `Download` | `download_file`, and the upload-then-download round trip |

Three behaviours of the code are worth knowing, and the model keeps them as written:

- **Temporaries on failure.** The temporary page images are deleted only
  after a success. When any step raises, they stay on disk.
- **Empty output file.** The output is opened with `"wb"` *before* the
  encoder is called. So if the encoder raises, an empty output file is left
  behind.
- **Resolution.** The banner comment (app.py:35), the function's name
  (app.py:37), its docstring (app.py:39) and the comment before the call
  (app.py:43) all say 200 dpi, and the response reports `dpi: 200`
  (`Upload.ReportedDpi`). The renderer call passes `dpi=300`
  (`Flatten.RenderDpi`). The model keeps both values.

## Model

| member | source | states |
|---|---|---|
| `Extension.AllowedFileIff` | app.py:29-30 | a name is accepted exactly when its last four characters are a dot followed by `p`, `d`, `f` in any case |
| `Extension.OnlyLastExtensionCounts` | app.py:30 | for any stem and any dot-free extension, `stem.ext` is accepted iff `ext` is `pdf` in some case; what comes before the last dot never matters |
| `Extension.NoDotRejected` | app.py:30 | labelled example of the `'.' in filename` guard: a name without a dot is rejected |
| `Extension.AllowedFileEdgeCases` | app.py:30 | `a.exe.pdf`, `X.PDF` and the bare name `.pdf` are accepted; `a.pdf.exe` is rejected |
| `Extension.RSplitOnce` | app.py:30 | `rsplit('.', 1)` returns the whole name when there is no dot; otherwise it returns two parts that rejoin to the name around a dot, with no dot in the second part |
| `Decimal.ValueOfShow` | app.py:53 | reading back the decimal text of a page index gives the index |
| `Decimal.ShowOfValue` | app.py:53 | every canonical digit string is the decimal text of its value |
| `Paths.ParseTempPath` | app.py:53 | every path the parser accepts is exactly the temporary name of the index it returns |
| `Paths.ParseTempPathOfTempPath` | app.py:53 | the temporary name of page `i` parses back to `i` |
| `Paths.TempPathInjective` | app.py:52-55 | distinct pages get distinct temporary names, so no page image overwrites another |
| `Paths.TempPaths` | app.py:51-55 | the list of temporary names has one entry per page, and entry `i` is `temp_page_<i>.png` |
| `Paths.InTempPaths` | app.py:51-55 | a path is on the list for `n` pages iff it parses to an index below `n` |
| `Paths.Join` | app.py:91 | `os.path.join` ends with the name; a relative name stays under the folder; an absolute name replaces the folder |
| `FileSystem.RemoveExisting` | app.py:62-64 | after the clean-up loop, a path exists iff it existed and is not on the list; surviving files keep their contents |
| `Flatten.SavePages` | app.py:51-55 | pages are saved in index order, page `j` at `temp_page_<j>.png`; the first save that raises stops the loop; the files added are exactly the pages saved; nothing else changes |
| `Flatten.Reassemble` | app.py:57-66 | the encoder is called iff the output can be opened, on the page names and the disk with the output truncated; success iff it returns; afterwards the output holds its document and no temporary remains; on failure nothing is deleted |
| `Flatten.FlattenPdf` | app.py:37-70 | renderer failure changes nothing. The encoder is reached iff render, every page save and opening the output succeed. It receives the page names in page order and finds page `i` at the `i`-th name. `True` iff it succeeds; then the output holds its document, this run's temporaries are gone and every other path is unchanged. On `False` nothing is deleted, only this run's temporaries and the output can appear, and every other file keeps its contents |
| `Flatten.EncoderFailureLeavesDebris` | app.py:57-70 | when the encoder raises, every page image and an empty output file remain on disk |
| `Flatten.SaveFailureKeepsEarlierPages` | app.py:51-70 | when the save of page `m` raises, the result is `False`, the images of pages before `m` remain, and no other path is added or changed, so page `m` and later are never written |
| `Flatten.StaleTemporarySurvives` | app.py:51-66 | a `temp_page_<k>.png` left by an earlier run, with `k` at or beyond this run's page count, survives a successful flatten unchanged |
| `Upload.UploadPdf` | app.py:77-114 | the checks run in order (missing `pdf` part, empty name, disallowed extension), each with its own 400 text, and none changes the disk. The response is 400 iff the request is not accepted. A failed save of the upload gives 500 with the exception text. Otherwise flatten decides: 200 with the download link, dpi 200 and `OK`, or 500 with the fixed text. After a 200, the upload and the result are both on disk |
| `Upload.StoragePathsDistinct` | app.py:90-95 | the result path is `processed/aplanado_<name>`; it differs from the upload path; neither is named like a temporary page |
| `Upload.RejectedUploadIgnoresEnvironment` | app.py:79-88 | a rejected request gets the same 400 whatever the sanitiser, the disk's write behaviour, the renderer or the encoder are, and the disk is unchanged, so none of them was used |
| `Upload.MissingFieldFirst` | app.py:79-80 | labelled example of the first check: without a `pdf` part the answer is the missing-file 400, whatever the other parts hold |
| `Upload.SuccessReportsLinkAndDpi` | app.py:100-108 | a success means the request was accepted; its link is `/api/download/aplanado_<name>`; it reports dpi 200, not the 300 the renderer got, and status `OK` |
| `Download.DownloadFile` | app.py:121-127 | 404 iff `processed/<name>` does not exist; otherwise that file's contents are sent under the same name |
| `Download.DownloadDependsOnlyOnItsPath` | app.py:121-127 | the answer depends only on the one file looked up |
| `Download.UploadThenDownload` | app.py:94-127 | after a successful upload, downloading the linked name returns the encoder's document as an attachment under that name |

## Left out

- PDF rendering (`pdf2image`/poppler) and PDF encoding (`img2pdf`) are foreign libraries. They are the uninterpreted `Effects.render` and `Effects.encode`. The hard-coded poppler path is not modelled.
- `secure_filename` is an uninterpreted parameter, and no property of it is assumed. In particular, nothing says a stored upload stays inside `uploads/`.
- The 32 MiB `MAX_CONTENT_LENGTH` is not modelled. Werkzeug raises `RequestEntityTooLarge` when `request.files` is first read (app.py:79), inside the handler's `try`. The `except Exception` (app.py:112-114) turns it into a 500 whose text is the exception's string. That 500 path of `upload_pdf` is not modelled.
- `size_mb` and `os.path.getsize` are not modelled, because they are floating point. `os.path.getsize` could only raise if the output were missing, and `Upload.UploadPdf` proves the output exists after a success.
- Flask routing, CORS and `send_file` streaming are not modelled. Neither are the home page and the two `/api/health` handlers, which are fixed responses.
- The `print` logging in the exception handlers is left out.
- The outer `except` of `upload_pdf` (app.py:112-114) is modelled only for a failed save of the upload, which gives a 500 carrying the exception text. Other exceptions the real handler can meet are not modelled. These include the size limit above and a malformed multipart body.
- Concurrent requests and collisions of the fixed temporary names are left out. The model is one request at a time.
- Directories are not modelled: the disk holds files only. Creating the folders at start-up, `os.path.exists` on a directory, and `.`/`..` segments are left out. A missing folder shows up only as a write error.
- A write either fails before anything is created (`Effects.writeError`) or succeeds completely. Partial writes, a write that fails after the file was opened, and a failing `os.remove` are left out.
- `str.lower` covers `A`–`Z` only. No other character lower-cases to `p`, `d` or `f`, so `allowed_file` is unaffected.
- The React client, the Vite proxy configuration and the hello-world `server-flask/main.py` are not part of this model.
- `os.path.join` is modelled as POSIX `posixpath.join`, with `/` as the separator and an absolute second part replacing the folder. On Windows `os.path` is `ntpath`, with `\` separators and drive letters; the Windows renderer path at app.py:16 suggests that platform, but its joining rules are not modelled.
- `request.files` is modelled as a map from field name to one part. With several `pdf` parts, Werkzeug's multi-dict returns the first; the model has only one part per name.

/** The HTTP responses the endpoints produce, reduced to what the code decides:
    the status code and the JSON fields or the file sent. */
module Http {

  import opened FileSystem

  datatype Response =
      /** `jsonify({'error': error}), code` */
    | ErrorJson(code: int, error: string)
      /** the JSON body of a successful upload (status 200); `size_mb` is not modelled */
    | FlattenedJson(message: string, downloadUrl: string, dpi: int, status: string)
      /** `send_file(path, as_attachment=True, download_name=downloadName)` (status 200) */
    | Attachment(content: Bytes, downloadName: string)
  {
    /** The HTTP status code sent. */
    function Code(): int {
      match this
      case ErrorJson(code, _) => code
      case _ => 200
    }
  }

}

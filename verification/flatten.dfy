/** `flatten_pdf_200dpi(input_path, output_path)`: render every page of the
    input to an image, save page `i` as `temp_page_<i>.png`, open the output
    for writing, hand the temporary names in page order to the encoder, write
    its result, delete the temporaries and report `True`. Any exception on the
    way is swallowed and reported as `False`, with nothing cleaned up.

    The renderer, the encoder and the operating system's willingness to write
    a file are not part of this code; they are the uninterpreted `Effects`. */
module Flatten {

  import opened Options
  import opened Paths
  import opened FileSystem

  /** Resolution the renderer is actually asked for. The function's name, its
      comments and the upload response all say 200; the call passes 300. */
  const RenderDpi: int := 300

  /** What the code relies on but cannot see.
      - `writeError(p)`: `Some(msg)` when creating or overwriting the file `p`
        raises with message `msg`, `None` when the write succeeds;
      - `render(fs, input, dpi)`: the page images `convert_from_path` yields,
        already in the form `img.save(..., "PNG")` writes them, or `None` when
        it raises;
      - `encode(fs, paths)`: the document `img2pdf.convert(paths)` builds from
        the image files at `paths`, or `None` when it raises. */
  datatype Effects = Effects(
    writeError: Path -> Option<string>,
    render: (FS, Path, int) -> Option<seq<Bytes>>,
    encode: (FS, seq<Path>) -> Option<Bytes>)

  /** The one call of the encoder: the file system it read and the paths it was given. */
  datatype EncoderCall = EncoderCall(view: FS, paths: seq<Path>)

  /** Result of one flatten: the returned flag, the file system afterwards and
      the encoder call, if the code got that far. */
  datatype FlattenRun = FlattenRun(ok: bool, fs: FS, call: Option<EncoderCall>)

  /** State of the page-saving loop: all pages saved, or stopped at the page whose save raised. */
  datatype SaveRun = Saved(fs: FS) | SaveFailed(fs: FS, page: nat)

  /** Index of the first page the loop did not save. */
  function StopIndex(r: SaveRun, n: nat): nat {
    if r.Saved? then n else r.page
  }

  /** Every page with index in `lo..hi-1` can be saved. */
  predicate PagesWritable(writeError: Path -> Option<string>, lo: nat, hi: nat) {
    forall j :: lo <= j < hi ==> writeError(TempPath(j)).None?
  }

  /** The loop `for i, img in enumerate(images): img.save(f"temp_page_{i}.png")`
      from page `k` on. Page `j` lands at `TempPath(j)`, pages are saved in
      order, the first failing save stops the loop, and no other file changes. */
  function SavePages(writeError: Path -> Option<string>, fs: FS, pages: seq<Bytes>, k: nat): (r: SaveRun)
    requires k <= |pages|
    ensures k <= StopIndex(r, |pages|) <= |pages|
    ensures PagesWritable(writeError, k, StopIndex(r, |pages|))
    ensures r.SaveFailed? ==> r.page < |pages| && writeError(TempPath(r.page)).Some?
    ensures forall j :: k <= j < StopIndex(r, |pages|) ==> TempPath(j) in r.fs && r.fs[TempPath(j)] == pages[j]
    ensures forall p :: p in r.fs <==> p in fs || TempIndexIn(p, k, StopIndex(r, |pages|))
    ensures forall p :: p in fs && !TempIndexIn(p, k, StopIndex(r, |pages|)) ==> r.fs[p] == fs[p]
    decreases |pages| - k
  {
    if k == |pages| then Saved(fs)
    else if writeError(TempPath(k)).Some? then SaveFailed(fs, k)
    else
      var next := fs[TempPath(k) := pages[k]];
      var r := SavePages(writeError, next, pages, k + 1);
      var stop := StopIndex(r, |pages|);
      forall p ensures TempIndexIn(p, k, stop) <==> p == TempPath(k) || TempIndexIn(p, k + 1, stop) {
        TempIndexInStep(p, k, stop);
      }
      ParseTempPathOfTempPath(k);
      r
  }

  /** The part after the page loop: open the output for writing (which
      truncates it), call the encoder on the `n` temporary names, write its
      document and remove the temporaries that exist. */
  function Reassemble(fx: Effects, saved: FS, output: Path, n: nat): (r: FlattenRun)
    ensures r.call.Some? <==> fx.writeError(output).None?
    ensures r.call.Some? ==> r.call.value == EncoderCall(saved[output := []], TempPaths(n))
    ensures r.ok <==> r.call.Some? && fx.encode(r.call.value.view, r.call.value.paths).Some?
    ensures r.ok && !TempIndexIn(output, 0, n) ==>
              output in r.fs && r.fs[output] == fx.encode(r.call.value.view, r.call.value.paths).value
    ensures r.ok ==> forall i :: 0 <= i < n ==> TempPath(i) !in r.fs
    ensures r.ok ==> forall p :: p != output && !TempIndexIn(p, 0, n) ==>
              (p in r.fs <==> p in saved) && (p in saved ==> r.fs[p] == saved[p])
    ensures !r.ok ==> forall p :: p in saved ==> p in r.fs
    ensures !r.ok ==> forall p :: p in r.fs ==> p in saved || p == output
    ensures !r.ok ==> forall p :: p in saved && p != output ==> r.fs[p] == saved[p]
  {
    if fx.writeError(output).Some? then FlattenRun(false, saved, None)
    else
      var truncated := saved[output := []];
      var paths := TempPaths(n);
      var call := EncoderCall(truncated, paths);
      match fx.encode(truncated, paths)
      case None => FlattenRun(false, truncated, Some(call))
      case Some(doc) =>
        forall p ensures p in paths <==> TempIndexIn(p, 0, n) {
          InTempPaths(n, p);
        }
        FlattenRun(true, RemoveExisting(truncated[output := doc], paths), Some(call))
  }

  /** Number of pages the renderer yields, 0 when it raises. */
  function PageCount(fx: Effects, fs: FS, input: Path): nat {
    match fx.render(fs, input, RenderDpi)
    case None => 0
    case Some(pages) => |pages|
  }

  /** The function as written. Paths named like the temporary image of one of
      this run's pages are "this run's temporaries"; any other path, including
      a `temp_page_<k>.png` left by an earlier run with more pages, is framed. */
  function FlattenPdf(fx: Effects, fs: FS, input: Path, output: Path): (r: FlattenRun)
    // the renderer is asked for 300 dpi; when it raises nothing happens at all
    ensures fx.render(fs, input, RenderDpi).None? ==> !r.ok && r.fs == fs && r.call.None?
    // the encoder is reached exactly when rendering, every page save and
    // opening the output succeed; success means the encoder succeeded too
    ensures r.call.Some? <==>
              && fx.render(fs, input, RenderDpi).Some?
              && PagesWritable(fx.writeError, 0, PageCount(fx, fs, input))
              && fx.writeError(output).None?
    ensures r.ok <==> r.call.Some? && fx.encode(r.call.value.view, r.call.value.paths).Some?
    // the encoder receives `temp_page_0.png`, ..., `temp_page_{n-1}.png` in page order
    ensures r.call.Some? ==> r.call.value.paths == TempPaths(PageCount(fx, fs, input))
    // and, unless the output itself is one of those names, finds page `i`
    // at the i-th path and the output truncated to empty
    ensures r.call.Some? && !TempIndexIn(output, 0, PageCount(fx, fs, input)) ==>
              var c := r.call.value;
              && (forall i :: 0 <= i < |c.paths| ==> c.paths[i] in c.view && c.view[c.paths[i]] == fx.render(fs, input, RenderDpi).value[i])
              && output in c.view && c.view[output] == []
    // on success the output holds the encoder's document, no temporary of this
    // run remains, and every other path is exactly as before
    ensures r.ok && !TempIndexIn(output, 0, PageCount(fx, fs, input)) ==>
              output in r.fs && r.fs[output] == fx.encode(r.call.value.view, r.call.value.paths).value
    ensures r.ok ==> forall i :: 0 <= i < PageCount(fx, fs, input) ==> TempPath(i) !in r.fs
    ensures r.ok ==> forall p :: p != output && !TempIndexIn(p, 0, PageCount(fx, fs, input)) ==>
              (p in r.fs <==> p in fs) && (p in fs ==> r.fs[p] == fs[p])
    // on failure nothing is deleted, the only paths added are this run's
    // temporaries and the output, and every other file keeps its contents
    ensures !r.ok ==> forall p :: p in fs ==> p in r.fs
    ensures !r.ok ==> forall p :: p in r.fs ==> p in fs || p == output || TempIndexIn(p, 0, PageCount(fx, fs, input))
    ensures !r.ok ==> forall p :: p in fs && p != output && !TempIndexIn(p, 0, PageCount(fx, fs, input)) ==>
              r.fs[p] == fs[p]
  {
    match fx.render(fs, input, RenderDpi)
    case None => FlattenRun(false, fs, None)
    case Some(pages) =>
      match SavePages(fx.writeError, fs, pages, 0)
      case SaveFailed(saved, _) => FlattenRun(false, saved, None)
      case Saved(saved) =>
        var n := |pages|;
        var r := Reassemble(fx, saved, output, n);
        forall i | 0 <= i < n ensures ParseTempPath(TempPath(i)) == Some(i) {
          ParseTempPathOfTempPath(i);
        }
        r
  }

  /** A temporary image left by an earlier run with more pages is not this
      run's temporary: a successful flatten keeps it, contents and all. */
  lemma StaleTemporarySurvives(fx: Effects, fs: FS, input: Path, output: Path, k: nat)
    ensures var r := FlattenPdf(fx, fs, input, output);
            r.ok && PageCount(fx, fs, input) <= k && TempPath(k) in fs && TempPath(k) != output ==>
              TempPath(k) in r.fs && r.fs[TempPath(k)] == fs[TempPath(k)]
  {
    ParseTempPathOfTempPath(k);
  }

  /** When the encoder raises, the function returns `False` having deleted
      nothing: every page image stays on disk and the output is left behind as
      the empty file the `open(output_path, "wb")` created. */
  lemma EncoderFailureLeavesDebris(fx: Effects, fs: FS, input: Path, output: Path)
    requires FlattenPdf(fx, fs, input, output).call.Some?
    requires !FlattenPdf(fx, fs, input, output).ok
    requires !TempIndexIn(output, 0, PageCount(fx, fs, input))
    ensures var r := FlattenPdf(fx, fs, input, output);
            var pages := fx.render(fs, input, RenderDpi).value;
            && (forall i :: 0 <= i < |pages| ==> TempPath(i) in r.fs && r.fs[TempPath(i)] == pages[i])
            && output in r.fs && r.fs[output] == []
  {
    var pages := fx.render(fs, input, RenderDpi).value;
    var saved := SavePages(fx.writeError, fs, pages, 0);
    assert saved.Saved?;
    forall i | 0 <= i < |pages| ensures TempPath(i) != output {
      ParseTempPathOfTempPath(i);
    }
  }

  /** When the save of page `m` raises, the function returns `False` and the
      images of pages `0..m-1` stay on disk; page `m` and later are never written. */
  lemma SaveFailureKeepsEarlierPages(fx: Effects, fs: FS, input: Path, output: Path, m: nat)
    requires fx.render(fs, input, RenderDpi).Some?
    requires m < |fx.render(fs, input, RenderDpi).value|
    requires PagesWritable(fx.writeError, 0, m)
    requires fx.writeError(TempPath(m)).Some?
    ensures var r := FlattenPdf(fx, fs, input, output);
            var pages := fx.render(fs, input, RenderDpi).value;
            && !r.ok && r.call.None?
            && (forall i :: 0 <= i < m ==> TempPath(i) in r.fs && r.fs[TempPath(i)] == pages[i])
            && (forall p :: p in r.fs <==> p in fs || TempIndexIn(p, 0, m))
            && (forall p :: p in fs && !TempIndexIn(p, 0, m) ==> r.fs[p] == fs[p])
  {
    var pages := fx.render(fs, input, RenderDpi).value;
    var saved := SavePages(fx.writeError, fs, pages, 0);
    assert StopIndex(saved, |pages|) == m;
  }

}

/** The extension allow-list of the upload endpoint, `allowed_file`: a name is
    accepted when it has a dot and the text after its LAST dot, lower-cased,
    is one of the allowed extensions (only `pdf`). */
module Extension {

  import opened Options

  const AllowedExtensions: set<string> := {"pdf"}

  /** Position of the last occurrence of `c` in `s`. */
  function LastIndexOf(s: string, c: char): (r: Option<nat>)
    ensures r.None? <==> c !in s
    ensures r.Some? ==> r.value < |s| && s[r.value] == c
    ensures r.Some? ==> forall j :: r.value < j < |s| ==> s[j] != c
  {
    if |s| == 0 then None
    else if s[|s| - 1] == c then Some(|s| - 1)
    else LastIndexOf(s[..|s| - 1], c)
  }

  /** `s.rsplit(sep, 1)`: the whole string when `sep` does not occur, otherwise
      the text before and the text after the last `sep`. */
  function RSplitOnce(s: string, sep: char): (parts: seq<string>)
    ensures sep !in s ==> parts == [s]
    ensures sep in s ==> |parts| == 2 && s == parts[0] + [sep] + parts[1] && sep !in parts[1]
  {
    match LastIndexOf(s, sep)
    case None => [s]
    case Some(i) =>
      assert s == s[..i] + [sep] + s[i + 1..];
      [s[..i], s[i + 1..]]
  }

  /** `str.lower` on one character. Only A-Z are mapped: no other character
      lower-cases to a letter of `pdf`, so the allow-list check is unaffected. */
  function LowerChar(c: char): char {
    if 'A' <= c <= 'Z' then (c as int + 32) as char else c
  }

  function Lower(s: string): (r: string)
    ensures |r| == |s| && forall i :: 0 <= i < |s| ==> r[i] == LowerChar(s[i])
  {
    seq(|s|, i requires 0 <= i < |s| => LowerChar(s[i]))
  }

  /** `allowed_file(filename)` of the upload endpoint. */
  predicate AllowedFile(filename: string) {
    '.' in filename && Lower(RSplitOnce(filename, '.')[1]) in AllowedExtensions
  }

  /** Three characters spelling `pdf` in any mix of cases. */
  predicate IsPdfExtension(e: string) {
    && |e| == 3
    && (e[0] == 'p' || e[0] == 'P')
    && (e[1] == 'd' || e[1] == 'D')
    && (e[2] == 'f' || e[2] == 'F')
  }

  lemma LowerIsPdf(e: string)
    ensures Lower(e) == "pdf" <==> IsPdfExtension(e)
  {
    if IsPdfExtension(e) {
      assert Lower(e) == "pdf";
    }
  }

  /** If `ext` has no dot, the part after the last dot of `stem + "." + ext` is `ext`. */
  lemma {:induction false} LastPartOf(stem: string, ext: string)
    requires '.' !in ext
    ensures RSplitOnce(stem + "." + ext, '.')[1] == ext
  {
    var s := stem + "." + ext;
    assert s[|stem|] == '.';
    var parts := RSplitOnce(s, '.');
    var tail := parts[1];
    if |tail| > |ext| {
      assert false;
    } else if |tail| < |ext| {
      assert false;
    }
    assert tail == s[|s| - |tail|..];
  }

  /** The allow-list decision depends only on the last four characters: a dot
      followed by `pdf` in any case. */
  lemma AllowedFileIff(name: string)
    ensures AllowedFile(name) <==> |name| >= 4 && name[|name| - 4] == '.' && IsPdfExtension(name[|name| - 3..])
  {
    if '.' in name {
      var parts := RSplitOnce(name, '.');
      LowerIsPdf(parts[1]);
      if AllowedFile(name) {
        assert |parts[1]| == 3;
        assert name[|name| - 3..] == parts[1];
        assert name[|name| - 4] == '.';
      }
      if |name| >= 4 && name[|name| - 4] == '.' && IsPdfExtension(name[|name| - 3..]) {
        var ext := name[|name| - 3..];
        assert name == name[..|name| - 4] + "." + ext;
        LastPartOf(name[..|name| - 4], ext);
      }
    } else if |name| >= 4 {
      assert name[|name| - 4] in name;
    }
  }

  /** Only the final extension counts, whatever precedes its dot. */
  lemma OnlyLastExtensionCounts(stem: string, ext: string)
    requires '.' !in ext
    ensures AllowedFile(stem + "." + ext) <==> IsPdfExtension(ext)
  {
    var s := stem + "." + ext;
    assert s[|stem|] == '.';
    LastPartOf(stem, ext);
    LowerIsPdf(ext);
  }

  /** A name without a dot is always rejected. */
  lemma NoDotRejected(name: string)
    requires '.' !in name
    ensures !AllowedFile(name)
  {
  }

  /** Edge cases of the allow-list: a double extension ending in `.pdf`, upper
      case and the bare name `.pdf` are accepted; `pdf` followed by another
      extension is rejected. */
  lemma AllowedFileEdgeCases()
    ensures AllowedFile("a.exe.pdf")
    ensures AllowedFile("X.PDF")
    ensures AllowedFile(".pdf")
    ensures !AllowedFile("a.pdf.exe")
  {
    AllowedFileIff("a.exe.pdf");
    AllowedFileIff("X.PDF");
    AllowedFileIff(".pdf");
    AllowedFileIff("a.pdf.exe");
  }

}

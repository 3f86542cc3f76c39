/** File-system paths of the server: the two storage folders, `os.path.join`
    (POSIX flavour) and the fixed names of the flatten step's temporary page
    images, `temp_page_<i>.png`, with a parser that recovers the page index. */
module Paths {

  import opened Options
  import Decimal

  type Path = string

  /** Folder the uploaded originals are saved in. */
  const UploadFolder: Path := "uploads"
  /** Folder the flattened outputs are written to and downloaded from. */
  const ProcessedFolder: Path := "processed"

  const TempPrefix: string := "temp_page_"
  const TempSuffix: string := ".png"

  predicate IsRelative(name: string) {
    |name| == 0 || name[0] != '/'
  }

  /** `os.path.join(dir, name)`: an absolute `name` replaces `dir`; otherwise a
      separator is inserted unless `dir` is empty or already ends in one. */
  function Join(dir: Path, name: string): (p: Path)
    ensures |name| <= |p| && p[|p| - |name|..] == name
    ensures IsRelative(name) ==> |dir| <= |p| && p[..|dir|] == dir
    ensures !IsRelative(name) ==> p == name
  {
    if !IsRelative(name) then name
    else if |dir| == 0 || dir[|dir| - 1] == '/' then dir + name
    else dir + "/" + name
  }

  /** Joining a relative name onto one of the two storage folders puts exactly
      one separator between them. */
  lemma JoinFolder(dir: Path, name: string)
    requires dir == UploadFolder || dir == ProcessedFolder
    requires IsRelative(name)
    ensures Join(dir, name) == dir + "/" + name
  {
  }

  /** Name of the temporary image of page `i`. */
  function TempPath(i: nat): Path {
    TempPrefix + Decimal.Show(i) + TempSuffix
  }

  /** Recovers the page index from a temporary image name; `None` for any
      path that is not such a name. */
  function ParseTempPath(p: Path): (r: Option<nat>)
    ensures r.Some? ==> p == TempPath(r.value)
  {
    if |p| > |TempPrefix| + |TempSuffix|
       && p[..|TempPrefix|] == TempPrefix
       && p[|p| - |TempSuffix|..] == TempSuffix
    then
      var digits := p[|TempPrefix|..|p| - |TempSuffix|];
      if Decimal.Canonical(digits) then
        Decimal.ShowOfValue(digits);
        assert p == TempPrefix + digits + TempSuffix;
        Some(Decimal.Value(digits))
      else None
    else None
  }

  /** Every temporary image name parses back to its own page index. */
  lemma {:induction false} ParseTempPathOfTempPath(i: nat)
    ensures ParseTempPath(TempPath(i)) == Some(i)
  {
    var p := TempPath(i);
    var digits := Decimal.Show(i);
    assert p[..|TempPrefix|] == TempPrefix;
    assert p[|p| - |TempSuffix|..] == TempSuffix;
    assert p[|TempPrefix|..|p| - |TempSuffix|] == digits;
    Decimal.ValueOfShow(i);
  }

  /** Distinct pages get distinct temporary names. */
  lemma TempPathInjective(i: nat, j: nat)
    requires TempPath(i) == TempPath(j)
    ensures i == j
  {
    ParseTempPathOfTempPath(i);
    ParseTempPathOfTempPath(j);
  }

  /** A path that does not start with the letter `t` is never a temporary image name. */
  lemma NotTempPath(p: Path)
    requires |p| == 0 || p[0] != 't'
    ensures ParseTempPath(p).None?
  {
  }

  /** `p` names the temporary image of some page in `lo..hi-1`. */
  predicate TempIndexIn(p: Path, lo: nat, hi: nat) {
    var i := ParseTempPath(p);
    i.Some? && lo <= i.value < hi
  }

  /** Splitting off the lowest index of a non-empty index range. */
  lemma TempIndexInStep(p: Path, lo: nat, hi: nat)
    requires lo < hi
    ensures TempIndexIn(p, lo, hi) <==> p == TempPath(lo) || TempIndexIn(p, lo + 1, hi)
  {
    ParseTempPathOfTempPath(lo);
  }

  /** The list `temp_paths` the save loop builds for `n` pages, page 0 first. */
  function TempPaths(n: nat): (paths: seq<Path>)
    ensures |paths| == n
    ensures forall i :: 0 <= i < n ==> paths[i] == TempPath(i)
  {
    if n == 0 then [] else TempPaths(n - 1) + [TempPath(n - 1)]
  }

  /** A path is in `TempPaths(n)` exactly when it is the temporary name of one of the first `n` pages. */
  lemma {:induction false} InTempPaths(n: nat, p: Path)
    ensures p in TempPaths(n) <==> TempIndexIn(p, 0, n)
  {
    var paths := TempPaths(n);
    if p in paths {
      var i :| 0 <= i < n && paths[i] == p;
      ParseTempPathOfTempPath(i);
    }
    if TempIndexIn(p, 0, n) {
      var i := ParseTempPath(p).value;
      assert paths[i] == p;
    }
  }

}

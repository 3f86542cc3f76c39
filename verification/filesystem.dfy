/** The server's view of the disk: a finite map from path to file contents.
    A path is present exactly when `os.path.exists` would report it. */
module FileSystem {

  import opened Paths

  type Bytes = seq<bv8>

  type FS = map<Path, Bytes>

  /** The clean-up loop of the flatten step: for each path in order, remove it
      if it exists. Paths not on the list keep their contents. */
  function RemoveExisting(fs: FS, paths: seq<Path>): (r: FS)
    ensures forall p :: p in r <==> p in fs && p !in paths
    ensures forall p :: p in r ==> r[p] == fs[p]
  {
    if |paths| == 0 then fs
    else
      var next := if paths[0] in fs then fs - {paths[0]} else fs;
      RemoveExisting(next, paths[1..])
  }

}

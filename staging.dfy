/**
 * The staging step `createSymlinks` (main.go): every unique track that exists
 * gets a symbolic link in a temporary directory, at a path that mirrors its
 * absolute path, so that rsync can copy the tree with links followed.
 */
module Staging {
  import opened Wrappers
  import opened Strings
  import opened FilePath
  import opened Settings

  /** The link path of a source inside the staging directory: the source with its leading separator dropped, joined on. */
  function LinkPath(tmpDir: string, src: string): string {
    Join(tmpDir, TrimPrefix(src, "/"))
  }

  /** For a clean staging directory and a clean absolute source other than "/", the link path is the two texts concatenated. */
  lemma LinkMirrorsSource(tmpDir: string, src: string)
    requires Clean(tmpDir) == tmpDir && tmpDir != "/" && tmpDir != "."
    requires Clean(src) == src && IsAbs(src) && src != "/"
    ensures LinkPath(tmpDir, src) == tmpDir + src
  {
    assert HasPrefix(src, "/");
    assert tmpDir + "/" + src[1..] == tmpDir + src;
    CleanConcat(tmpDir, src);
  }

  /** Distinct clean absolute sources get distinct link paths, so no link overwrites another. */
  lemma LinksDistinct(tmpDir: string, a: string, b: string)
    requires Clean(tmpDir) == tmpDir && tmpDir != "/" && tmpDir != "."
    requires Clean(a) == a && IsAbs(a) && a != "/"
    requires Clean(b) == b && IsAbs(b) && b != "/"
    requires a != b
    ensures LinkPath(tmpDir, a) != LinkPath(tmpDir, b)
  {
    LinkMirrorsSource(tmpDir, a);
    LinkMirrorsSource(tmpDir, b);
    assert (tmpDir + a)[|tmpDir|..] == a && (tmpDir + b)[|tmpDir|..] == b;
  }

  /** The root as a source maps onto the staging directory itself. */
  lemma LinkOfRoot(tmpDir: string)
    requires Clean(tmpDir) == tmpDir
    ensures LinkPath(tmpDir, "/") == tmpDir
  {
    assert TrimPrefix("/", "/") == "";
    assert tmpDir != "" && tmpDir + "/" + "" == tmpDir + "/";
    CleanTrailingSeparator(tmpDir);
  }

  /** A staging directory and the links made in it, each link path mapped to the source it points to. */
  datatype Staged = Staged(tmpDir: string, links: map<string, string>)

  const TempDirFailed := "error creating temp dir"

  /**
   * `createSymlinks`. `tmpDir` is the directory `os.MkdirTemp` made, or None
   * when it failed; `present` holds the sources that exist. A source that is
   * missing is skipped, and a link whose path is already taken, by another
   * link or by the staging directory itself, is not made.
   */
  method CreateSymlinks(tmpDir: Option<string>, unique: set<string>, present: set<string>) returns (r: Result<Staged>)
    ensures r.Err? <==> tmpDir.None?
    ensures r.Err? ==> r.msg == TempDirFailed
    ensures r.Ok? ==> r.value.tmpDir == tmpDir.value
    ensures r.Ok? ==> forall l :: l in r.value.links ==>
      && l != tmpDir.value
      && r.value.links[l] in unique && r.value.links[l] in present
      && LinkPath(tmpDir.value, r.value.links[l]) == l
    ensures r.Ok? ==> forall src :: src in unique && src in present && LinkPath(tmpDir.value, src) != tmpDir.value ==>
      LinkPath(tmpDir.value, src) in r.value.links
  {
    if tmpDir.None? {
      return Err(TempDirFailed);
    }
    var dir := tmpDir.value;
    var links: map<string, string> := map[];
    var remaining := unique;
    while remaining != {}
      invariant remaining <= unique
      invariant forall l :: l in links ==> l != dir && links[l] in unique - remaining && links[l] in present && LinkPath(dir, links[l]) == l
      invariant forall src :: src in unique - remaining && src in present && LinkPath(dir, src) != dir ==> LinkPath(dir, src) in links
      decreases remaining
    {
      var src :| src in remaining;
      remaining := remaining - {src};
      if src !in present {
        continue;
      }
      var linkPath := LinkPath(dir, src);
      if linkPath != dir && linkPath !in links {
        links := links[linkPath := src];
      }
    }
    return Ok(Staged(dir, links));
  }

  /**
   * When the staging directory is clean and every present source is a clean
   * absolute path other than "/", as the collector's unique set is, each
   * present source has its own link pointing to it.
   */
  lemma StagedExactly(tmpDir: string, unique: set<string>, present: set<string>, links: map<string, string>)
    requires Clean(tmpDir) == tmpDir && tmpDir != "/" && tmpDir != "."
    requires forall src :: src in unique && src in present ==> Clean(src) == src && IsAbs(src) && src != "/"
    requires forall l :: l in links ==> links[l] in unique && links[l] in present && LinkPath(tmpDir, links[l]) == l
    requires forall src :: src in unique && src in present && LinkPath(tmpDir, src) != tmpDir ==> LinkPath(tmpDir, src) in links
    ensures forall src :: src in unique && src in present ==>
      LinkPath(tmpDir, src) in links && links[LinkPath(tmpDir, src)] == src
  {
    forall src | src in unique && src in present
      ensures LinkPath(tmpDir, src) in links && links[LinkPath(tmpDir, src)] == src
    {
      LinkMirrorsSource(tmpDir, src);
      assert |LinkPath(tmpDir, src)| > |tmpDir|;
      var other := links[LinkPath(tmpDir, src)];
      if other != src {
        LinksDistinct(tmpDir, src, other);
      }
    }
  }
}

/**
 * The collector `collectUniqueFiles` (main.go): parses every matched playlist,
 * records its retained lines under its path, and gathers the cleaned track
 * paths of all playlists into one set.
 */
module Collector {
  import opened Wrappers
  import opened Strings
  import opened FilePath
  import opened Parser

  /** A matched playlist: its path, and its content, or None when it cannot be read. */
  datatype PlaylistFile = PlaylistFile(path: string, content: Option<string>)

  /** The result of a successful collection. */
  datatype Collection = Collection(unique: set<string>, perPlaylistLines: map<string, seq<string>>)

  /** The error text for a glob that fails or matches nothing. */
  function NoMatch(pattern: string): string {
    "no playlists matched: " + pattern
  }

  /** The retained lines of one playlist; an unreadable playlist has none. */
  function LinesOf(f: PlaylistFile): seq<string> {
    if f.content.None? then [] else Parse(f.content.value).lines
  }

  /** The tracks of one playlist; an unreadable playlist has none. */
  function TracksIn(f: PlaylistFile): seq<string> {
    if f.content.None? then [] else Parse(f.content.value).tracks
  }

  /** The cleaned form of every track in the list. */
  function CleanedSet(ts: seq<string>): set<string> {
    set t | t in ts :: Clean(t)
  }

  /** The unique set after folding the playlists in order. */
  function UniqueOf(fs: seq<PlaylistFile>): set<string>
    decreases |fs|
  {
    if fs == [] then {} else UniqueOf(fs[..|fs| - 1]) + CleanedSet(TracksIn(fs[|fs| - 1]))
  }

  /** The per-playlist lines after folding the playlists in order; a later entry for the same path wins. */
  function LinesByPath(fs: seq<PlaylistFile>): map<string, seq<string>>
    decreases |fs|
  {
    if fs == [] then map[] else LinesByPath(fs[..|fs| - 1])[fs[|fs| - 1].path := LinesOf(fs[|fs| - 1])]
  }

  /**
   * `collectUniqueFiles`, with the glob's result given: None when the pattern
   * is malformed, otherwise the matched playlists in glob order.
   */
  method CollectUniqueFiles(pattern: string, matched: Option<seq<PlaylistFile>>) returns (r: Result<Collection>)
    ensures r.Err? <==> matched.None? || matched.value == []
    ensures r.Err? ==> r.msg == NoMatch(pattern)
    ensures r.Ok? ==> r.value == Collection(UniqueOf(matched.value), LinesByPath(matched.value))
  {
    if matched.None? || |matched.value| == 0 {
      return Err(NoMatch(pattern));
    }
    var playlists := matched.value;
    var unique: set<string> := {};
    var perPlaylistLines: map<string, seq<string>> := map[];
    var n := 0;
    while n < |playlists|
      invariant 0 <= n <= |playlists|
      invariant unique == UniqueOf(playlists[..n])
      invariant perPlaylistLines == LinesByPath(playlists[..n])
    {
      var playlist := playlists[n];
      var lines, tracks, readError := ParsePlaylistFile(playlist.content);
      var grown := AddCleaned(unique, tracks);
      CollectStep(playlists, n, unique, perPlaylistLines, lines, tracks, grown);
      perPlaylistLines := perPlaylistLines[playlist.path := lines];
      unique := grown;
      n := n + 1;
    }
    assert playlists[..n] == playlists;
    return Ok(Collection(unique, perPlaylistLines));
  }

  /** The inner loop of `collectUniqueFiles`: adds the cleaned form of every track to the set. */
  method AddCleaned(unique: set<string>, tracks: seq<string>) returns (r: set<string>)
    ensures r == unique + CleanedSet(tracks)
  {
    r := unique;
    var m := 0;
    while m < |tracks|
      invariant 0 <= m <= |tracks|
      invariant r == unique + CleanedSet(tracks[..m])
    {
      CleanedSetSnoc(tracks, m);
      r := r + {Clean(tracks[m])};
      m := m + 1;
    }
    assert tracks[..m] == tracks;
  }

  lemma CleanedSetSnoc(ts: seq<string>, m: nat)
    requires m < |ts|
    ensures CleanedSet(ts[..m + 1]) == CleanedSet(ts[..m]) + {Clean(ts[m])}
  {
    assert ts[..m + 1] == ts[..m] + [ts[m]];
  }

  /** Folding one more playlist, parsed into `lines` and `tracks`, into both results. */
  lemma CollectStep(fs: seq<PlaylistFile>, n: nat, unique: set<string>, m: map<string, seq<string>>,
                    lines: seq<string>, tracks: seq<string>, grown: set<string>)
    requires n < |fs| && unique == UniqueOf(fs[..n]) && m == LinesByPath(fs[..n])
    requires fs[n].content.None? ==> lines == [] && tracks == []
    requires fs[n].content.Some? ==> Parsed(lines, tracks) == Parse(fs[n].content.value)
    requires grown == unique + CleanedSet(tracks)
    ensures grown == UniqueOf(fs[..n + 1])
    ensures m[fs[n].path := lines] == LinesByPath(fs[..n + 1])
  {
    assert fs[..n + 1][..n] == fs[..n];
    assert lines == LinesOf(fs[n]) && tracks == TracksIn(fs[n]);
  }

  /** The set of playlists in the per-playlist map is the set of matched paths. */
  lemma {:induction false} LinesByPathKeys(fs: seq<PlaylistFile>)
    ensures LinesByPath(fs).Keys == set f | f in fs :: f.path
    decreases |fs|
  {
    if fs != [] {
      var init := fs[..|fs| - 1];
      LinesByPathKeys(init);
      assert fs == init + [fs[|fs| - 1]];
    }
  }

  /** A playlist's entry holds the lines of its last occurrence in the match list. */
  lemma {:induction false} LinesByPathLast(fs: seq<PlaylistFile>, j: nat)
    requires j < |fs|
    requires forall k :: j < k < |fs| ==> fs[k].path != fs[j].path
    ensures fs[j].path in LinesByPath(fs)
    ensures LinesByPath(fs)[fs[j].path] == LinesOf(fs[j])
    decreases |fs|
  {
    var init := fs[..|fs| - 1];
    if j < |fs| - 1 {
      LinesByPathLast(init, j);
    }
  }

  /**
   * The unique set is exactly the cleaned tracks of all matched playlists:
   * a path is in it when some playlist has a track that cleans to it.
   */
  lemma {:induction false} UniqueMembers(fs: seq<PlaylistFile>, t: string)
    ensures t in UniqueOf(fs) <==> exists k :: 0 <= k < |fs| && t in CleanedSet(TracksIn(fs[k]))
    decreases |fs|
  {
    if fs != [] {
      var init := fs[..|fs| - 1];
      UniqueMembers(init, t);
      if t in UniqueOf(init) {
        var k :| 0 <= k < |init| && t in CleanedSet(TracksIn(init[k]));
        assert fs[k] == init[k];
      }
      if exists k :: 0 <= k < |fs| && t in CleanedSet(TracksIn(fs[k])) {
        var k :| 0 <= k < |fs| && t in CleanedSet(TracksIn(fs[k]));
        if k < |fs| - 1 {
          assert init[k] == fs[k];
        }
      }
    }
  }

  /** Every unique path is absolute, free of control runes, and already clean. */
  lemma {:induction false} UniqueWellFormed(fs: seq<PlaylistFile>)
    ensures forall t :: t in UniqueOf(fs) ==> IsAbs(t) && NoControl(t) && Clean(t) == t
    decreases |fs|
  {
    if fs != [] {
      var last := fs[|fs| - 1];
      UniqueWellFormed(fs[..|fs| - 1]);
      if last.content.Some? {
        TracksWellFormed(SplitLines(last.content.value), 0);
      }
      forall u | u in TracksIn(last)
        ensures IsAbs(Clean(u)) && NoControl(Clean(u)) && Clean(Clean(u)) == Clean(u)
      {
        CleanNoControl(u);
        CleanIdempotent(u);
      }
    }
  }
}

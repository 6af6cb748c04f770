/**
 * The stale-playlist reconciler (main.go): `createExpectedPlaylistsMap` and
 * `cleanupOldPlaylists`, over a music directory whose entries are names with
 * a directory flag.
 */
module Reconciler {
  import opened Strings
  import opened FilePath
  import opened Settings

  /** The paths inside `musicDir` that the playlists with the given paths are written to. */
  function ExpectedOf(musicDir: string, playlists: set<string>): set<string> {
    set p | p in playlists :: Join(musicDir, Base(p))
  }

  /** The expected set of `createExpectedPlaylistsMap`: one path per collected playlist. */
  function ExpectedPlaylists(musicDir: string, perPlaylistLines: map<string, seq<string>>): set<string> {
    ExpectedOf(musicDir, perPlaylistLines.Keys)
  }

  /** `createExpectedPlaylistsMap`: the loop over the collected playlists, in any order. */
  method CreateExpectedPlaylistsMap(musicDir: string, perPlaylistLines: map<string, seq<string>>) returns (expected: set<string>)
    ensures expected == ExpectedPlaylists(musicDir, perPlaylistLines)
  {
    expected := {};
    var remaining := perPlaylistLines.Keys;
    while remaining != {}
      invariant remaining <= perPlaylistLines.Keys
      invariant expected == ExpectedOf(musicDir, perPlaylistLines.Keys - remaining)
      decreases remaining
    {
      var playlist :| playlist in remaining;
      ExpectedStep(musicDir, perPlaylistLines.Keys, remaining, playlist);
      expected := expected + {Join(musicDir, Base(playlist))};
      remaining := remaining - {playlist};
    }
  }

  lemma ExpectedStep(musicDir: string, all: set<string>, remaining: set<string>, p: string)
    requires p in remaining
    ensures ExpectedOf(musicDir, all - (remaining - {p})) == ExpectedOf(musicDir, all - remaining) + (if p in all then {Join(musicDir, Base(p))} else {})
  {
  }

  /** A directory entry is deleted when it is a file named like a playlist whose path is not expected. */
  predicate IsStale(musicDir: string, expected: set<string>, name: string, isDir: bool) {
    !isDir && HasSuffix(name, PlaylistExtension) && Join(musicDir, name) !in expected
  }

  /** The names of the stale entries of a directory listing. */
  function StaleNames(musicDir: string, expected: set<string>, entries: map<string, bool>): set<string> {
    set name | name in entries && IsStale(musicDir, expected, name, entries[name])
  }

  /**
   * The music directory on the device: each entry name with whether it is a
   * directory. Removing a name in `locked` fails, as `os.Remove` does for a
   * file it may not delete.
   */
  class MusicDirectory {
    var entries: map<string, bool>
    const locked: set<string>

    constructor (entries: map<string, bool>, locked: set<string>)
      ensures this.entries == entries && this.locked == locked
    {
      this.entries := entries;
      this.locked := locked;
    }

    /** `os.Remove`: deletes the entry, or fails when it is missing or locked. */
    method Remove(name: string) returns (ok: bool)
      modifies this
      ensures ok <==> name in old(entries) && name !in locked
      ensures entries == if ok then old(entries) - {name} else old(entries)
    {
      ok := name in entries && name !in locked;
      if ok {
        entries := entries - {name};
      }
    }
  }

  /**
   * `cleanupOldPlaylists`. `readable` says whether the directory can be listed;
   * when it cannot, the error is returned and nothing changes. A failed
   * removal is logged and the loop goes on, so it is not an error.
   */
  method CleanupOldPlaylists(cfg: Config, perPlaylistLines: map<string, seq<string>>, dir: MusicDirectory, readable: bool)
    returns (failed: bool)
    modifies dir
    ensures failed <==> !readable
    ensures failed || cfg.dryRun ==> dir.entries == old(dir.entries)
    ensures !failed && !cfg.dryRun ==>
      dir.entries == old(dir.entries) - (StaleNames(GetMusicDir(cfg), ExpectedPlaylists(GetMusicDir(cfg), perPlaylistLines), old(dir.entries)) - dir.locked)
  {
    var musicDir := GetMusicDir(cfg);
    var expected := CreateExpectedPlaylistsMap(musicDir, perPlaylistLines);
    if !readable {
      return true;
    }
    var listing := dir.entries;
    ghost var stale := StaleNames(musicDir, expected, listing);
    ghost var deleted: set<string> := {};
    var remaining := listing.Keys;
    DeletedNone(stale, listing, dir.locked, cfg.dryRun);
    while remaining != {}
      invariant remaining <= listing.Keys
      invariant deleted == DeletedOf(stale, listing.Keys - remaining, dir.locked, cfg.dryRun)
      invariant dir.entries == listing - deleted
      decreases remaining
    {
      var name :| name in remaining;
      ghost var before := dir.entries;
      // Directories, names without the playlist extension and expected
      // playlists are skipped; in a dry run the deletion is only logged.
      var ok := false;
      if !listing[name] && HasSuffix(name, PlaylistExtension) && Join(musicDir, name) !in expected && !cfg.dryRun {
        ok := dir.Remove(name);
      }
      CleanupStep(musicDir, expected, listing, remaining, name, dir.locked, cfg.dryRun, deleted, before, dir.entries, ok);
      if ok {
        deleted := deleted + {name};
      }
      remaining := remaining - {name};
    }
    DeletedAll(stale, listing.Keys, remaining, dir.locked, cfg.dryRun);
    return false;
  }

  /** One entry considered: the directory state and the deleted set move on together. */
  lemma CleanupStep(musicDir: string, expected: set<string>, listing: map<string, bool>, remaining: set<string>, name: string,
                    locked: set<string>, dryRun: bool, deleted: set<string>,
                    before: map<string, bool>, after: map<string, bool>, ok: bool)
    requires name in remaining && remaining <= listing.Keys
    requires deleted == DeletedOf(StaleNames(musicDir, expected, listing), listing.Keys - remaining, locked, dryRun)
    requires before == listing - deleted
    requires var guard := !listing[name] && HasSuffix(name, PlaylistExtension) && Join(musicDir, name) !in expected && !dryRun;
      if guard then (ok <==> name in before && name !in locked) && after == (if ok then before - {name} else before)
      else !ok && after == before
    ensures after == listing - (if ok then deleted + {name} else deleted)
    ensures (if ok then deleted + {name} else deleted) ==
      DeletedOf(StaleNames(musicDir, expected, listing), listing.Keys - (remaining - {name}), locked, dryRun)
  {
    var stale := StaleNames(musicDir, expected, listing);
    StaleMember(musicDir, expected, listing, name);
    DeletedStep(stale, listing.Keys, remaining, name, locked, dryRun, deleted);
    if ok {
      MapRemoveStep(listing, deleted, name);
    }
  }

  /** The names deleted once the names in `done` have been considered. */
  ghost function DeletedOf(stale: set<string>, done: set<string>, locked: set<string>, dryRun: bool): set<string> {
    if dryRun then {} else (stale * done) - locked
  }

  lemma StaleMember(musicDir: string, expected: set<string>, entries: map<string, bool>, name: string)
    requires name in entries
    ensures name in StaleNames(musicDir, expected, entries) <==> IsStale(musicDir, expected, name, entries[name])
  {
  }

  /** The deleted set after one more listed name has been considered. */
  lemma DeletedStep(stale: set<string>, all: set<string>, remaining: set<string>, name: string,
                    locked: set<string>, dryRun: bool, deleted: set<string>)
    requires name in remaining && remaining <= all
    requires deleted == DeletedOf(stale, all - remaining, locked, dryRun)
    ensures DeletedOf(stale, all - (remaining - {name}), locked, dryRun) ==
      if !dryRun && name in stale && name !in locked then deleted + {name} else deleted
  {
  }

  lemma DeletedNone(stale: set<string>, listing: map<string, bool>, locked: set<string>, dryRun: bool)
    ensures {} == DeletedOf(stale, listing.Keys - listing.Keys, locked, dryRun)
    ensures listing == listing - {}
  {
  }

  lemma DeletedAll(stale: set<string>, all: set<string>, remaining: set<string>, locked: set<string>, dryRun: bool)
    requires remaining == {} && stale <= all
    ensures DeletedOf(stale, all - remaining, locked, dryRun) == if dryRun then {} else stale - locked
  {
  }

  lemma MapRemoveStep(m: map<string, bool>, d: set<string>, x: string)
    ensures (m - d) - {x} == m - (d + {x})
  {
  }
  /** Joined onto the music directory, a base name and an entry name give the same path only when they are equal. */
  lemma JoinBaseInjective(musicDir: string, x: string, name: string)
    requires Clean(musicDir) == musicDir && musicDir != "/" && musicDir != "."
    requires x != "" && (x == "/" || '/' !in x)
    requires IsName(name)
    ensures Join(musicDir, x) == Join(musicDir, name) ==> x == name
  {
    JoinName(musicDir, name);
    if IsName(x) {
      JoinName(musicDir, x);
      assert (musicDir + "/" + x)[|musicDir| + 1..] == x;
      assert (musicDir + "/" + name)[|musicDir| + 1..] == name;
    } else {
      JoinSpecialBase(musicDir, x, name);
    }
  }

  /** A collected playlist's base name is never stale: cleanup keeps the file the playlist is written to. */
  lemma ExpectedNeverStale(musicDir: string, perPlaylistLines: map<string, seq<string>>, entries: map<string, bool>, p: string)
    requires p in perPlaylistLines
    ensures Base(p) !in StaleNames(musicDir, ExpectedPlaylists(musicDir, perPlaylistLines), entries)
  {
    assert Join(musicDir, Base(p)) in ExpectedPlaylists(musicDir, perPlaylistLines);
  }

  /**
   * In the tool's music directory, an entry name is stale exactly when it is a
   * file with the playlist extension that is the base name of no collected playlist.
   */
  lemma StaleIffUnmatchedBaseName(cfg: Config, perPlaylistLines: map<string, seq<string>>, entries: map<string, bool>, name: string)
    requires IsName(name)
    ensures var musicDir := GetMusicDir(cfg);
      name in StaleNames(musicDir, ExpectedPlaylists(musicDir, perPlaylistLines), entries) <==>
        && name in entries && !entries[name] && HasSuffix(name, PlaylistExtension)
        && forall p :: p in perPlaylistLines ==> Base(p) != name
  {
    var musicDir := GetMusicDir(cfg);
    var expected := ExpectedPlaylists(musicDir, perPlaylistLines);
    if Join(musicDir, name) in expected {
      var p :| p in perPlaylistLines && Join(musicDir, Base(p)) == Join(musicDir, name);
      JoinBaseInjective(musicDir, Base(p), name);
    } else {
      forall p | p in perPlaylistLines
        ensures Base(p) != name
      {
        assert Join(musicDir, Base(p)) in expected;
      }
    }
  }
}

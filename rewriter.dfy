/**
 * The playlist rewriter (main.go): `formatPlaylistLine`, the text that
 * `writeConvertedPlaylist` writes, and the bounded dry-run `previewPlaylist`.
 */
module Rewriter {
  import opened Strings
  import opened FilePath
  import opened Settings

  /**
   * `formatPlaylistLine`: a blank line becomes "", a trimmed line starting
   * with '#' is kept, and any other line is made relative to the playlist's
   * directory by "./" in place of at most one leading separator.
   */
  function FormatPlaylistLine(line: string): (r: string)
    ensures r == "" || HasPrefix(r, "#") || HasPrefix(r, "./")
  {
    var trimmed := TrimSpace(line);
    if trimmed == "" then ""
    else if HasPrefix(trimmed, "#") then trimmed
    else "./" + TrimPrefix(trimmed, "/")
  }

  /** Every line formatted, in order. */
  function FormatAll(lines: seq<string>): seq<string> {
    seq(|lines|, k requires 0 <= k < |lines| => FormatPlaylistLine(lines[k]))
  }

  /** A line formats to "" exactly when it is blank. */
  lemma FormatBlank(line: string)
    ensures FormatPlaylistLine(line) == "" <==> AllSpace(line)
  {
    TrimSpaceEmpty(line);
  }

  /** A comment or directive is returned trimmed, and formatting it again changes nothing. */
  lemma FormatComment(line: string)
    requires HasPrefix(TrimSpace(line), "#")
    ensures FormatPlaylistLine(line) == TrimSpace(line)
    ensures FormatPlaylistLine(FormatPlaylistLine(line)) == FormatPlaylistLine(line)
  {
    TrimSpaceIdempotent(line);
  }

  /** Any other non-blank line becomes "./" followed by the trimmed line without one leading separator. */
  lemma FormatTrack(line: string)
    requires TrimSpace(line) != "" && !HasPrefix(TrimSpace(line), "#")
    ensures FormatPlaylistLine(line) == "./" + TrimPrefix(TrimSpace(line), "/")
    ensures HasPrefix(FormatPlaylistLine(line), "./")
    ensures IsAbs(TrimSpace(line)) ==> FormatPlaylistLine(line) == "." + TrimSpace(line)
  {
    var t := TrimSpace(line);
    if IsAbs(t) {
      assert HasPrefix(t, "/");
      assert "./" + t[1..] == "." + t;
    }
  }

  /** Formatting a line without a line feed gives a line without one. */
  lemma FormatSingle(line: string)
    requires '\n' !in line
    ensures '\n' !in FormatPlaylistLine(line)
  {
    TrimSpaceChars(line);
  }

  /** The text written for a playlist: each formatted line followed by a line feed. */
  function PlaylistText(lines: seq<string>): string
    decreases |lines|
  {
    if lines == [] then "" else FormatPlaylistLine(lines[0]) + "\n" + PlaylistText(lines[1..])
  }

  /** The loop of `writeConvertedPlaylist` that fills the string builder. */
  method BuildPlaylistText(originalLines: seq<string>) returns (text: string)
    ensures text == PlaylistText(originalLines)
  {
    text := "";
    var i := 0;
    while i < |originalLines|
      invariant 0 <= i <= |originalLines|
      invariant PlaylistText(originalLines) == text + PlaylistText(originalLines[i..])
    {
      TextStep(originalLines, i, text);
      text := text + (FormatPlaylistLine(originalLines[i]) + "\n");
      i := i + 1;
    }
  }

  lemma TextStep(lines: seq<string>, i: nat, text: string)
    requires i < |lines| && PlaylistText(lines) == text + PlaylistText(lines[i..])
    ensures PlaylistText(lines) == text + (FormatPlaylistLine(lines[i]) + "\n") + PlaylistText(lines[i + 1..])
  {
    assert lines[i..][1..] == lines[i + 1..];
    AppendAssoc(text, FormatPlaylistLine(lines[i]) + "\n", PlaylistText(lines[i + 1..]));
  }

  /** The written text is the formatted lines joined by line feeds, with a final line feed. */
  lemma {:induction false} PlaylistTextIsJoin(lines: seq<string>)
    ensures PlaylistText(lines) == JoinWith(FormatAll(lines) + [""], '\n')
    decreases |lines|
  {
    if lines != [] {
      PlaylistTextIsJoin(lines[1..]);
      var parts := FormatAll(lines) + [""];
      assert parts[1..] == FormatAll(lines[1..]) + [""];
    }
  }

  /**
   * Reading the written text back line by line gives the formatted lines and
   * one empty piece after the final line feed, when no line holds a line feed.
   */
  lemma WrittenLinesRoundTrip(lines: seq<string>)
    requires forall k :: 0 <= k < |lines| ==> '\n' !in lines[k]
    ensures Split(PlaylistText(lines), '\n') == FormatAll(lines) + [""]
  {
    PlaylistTextIsJoin(lines);
    var parts := FormatAll(lines) + [""];
    forall k | 0 <= k < |parts|
      ensures '\n' !in parts[k]
    {
      if k < |lines| {
        FormatSingle(lines[k]);
      }
    }
    SplitJoinWith(parts, '\n');
  }

  /** The number of non-empty lines. */
  function NonEmpty(lines: seq<string>): nat
    decreases |lines|
  {
    if lines == [] then 0 else (if lines[0] != "" then 1 else 0) + NonEmpty(lines[1..])
  }

  /**
   * The lines the preview logs, from formatted lines with `count` non-empty
   * ones already shown: the loop stops right after the line that brings the
   * count to the limit.
   */
  function PreviewFrom(formatted: seq<string>, count: nat): seq<string>
    decreases |formatted|
  {
    if formatted == [] then []
    else if formatted[0] != "" && count + 1 >= MaxPreviewEntries then [formatted[0]]
    else [formatted[0]] + PreviewFrom(formatted[1..], if formatted[0] != "" then count + 1 else count)
  }

  /** The preview of a playlist's lines. */
  function Preview(originalLines: seq<string>): seq<string> {
    PreviewFrom(FormatAll(originalLines), 0)
  }

  /** `previewPlaylist`: formats and logs the lines until the limit of non-empty ones is reached. */
  method PreviewPlaylist(outPath: string, originalLines: seq<string>) returns (shown: seq<string>)
    ensures shown == Preview(originalLines)
  {
    ghost var formatted := FormatAll(originalLines);
    shown := [];
    var count := 0;
    var i := 0;
    while i < |originalLines|
      invariant 0 <= i <= |originalLines| && count < MaxPreviewEntries
      invariant PreviewFrom(formatted, 0) == shown + PreviewFrom(formatted[i..], count)
    {
      var line := FormatPlaylistLine(originalLines[i]);
      assert line == formatted[i];
      PreviewStep(formatted, i, count, shown);
      shown := shown + [line];
      if line != "" {
        count := count + 1;
        if count >= MaxPreviewEntries {
          break;
        }
      }
      i := i + 1;
    }
    PreviewEnd(formatted, i, count, shown);
  }

  /** One formatted line logged: either it is the last one, or the preview goes on after it. */
  lemma PreviewStep(formatted: seq<string>, i: nat, count: nat, shown: seq<string>)
    requires i < |formatted| && PreviewFrom(formatted, 0) == shown + PreviewFrom(formatted[i..], count)
    ensures formatted[i] != "" && count + 1 >= MaxPreviewEntries ==>
      PreviewFrom(formatted, 0) == shown + [formatted[i]]
    ensures !(formatted[i] != "" && count + 1 >= MaxPreviewEntries) ==>
      PreviewFrom(formatted, 0) == (shown + [formatted[i]]) + PreviewFrom(formatted[i + 1..], if formatted[i] != "" then count + 1 else count)
  {
    assert formatted[i..][1..] == formatted[i + 1..];
    var line := formatted[i];
    var next := if line != "" then count + 1 else count;
    if !(line != "" && count + 1 >= MaxPreviewEntries) {
      AppendAssoc(shown, [line], PreviewFrom(formatted[i + 1..], next));
    }
  }

  /** The preview is complete once the loop has run out of lines or stopped at the limit. */
  lemma PreviewEnd(formatted: seq<string>, i: nat, count: nat, shown: seq<string>)
    requires i <= |formatted|
    requires i == |formatted| ==> PreviewFrom(formatted, 0) == shown + PreviewFrom(formatted[i..], count)
    requires i < |formatted| ==> PreviewFrom(formatted, 0) == shown
    ensures shown == PreviewFrom(formatted, 0)
  {
    if i == |formatted| {
      assert formatted[i..] == [];
      assert shown + [] == shown;
    }
  }

  /** The preview is a prefix of the formatted lines. */
  lemma {:induction false} PreviewIsPrefix(formatted: seq<string>, count: nat)
    ensures PreviewFrom(formatted, count) <= formatted
    decreases |formatted|
  {
    if formatted != [] && !(formatted[0] != "" && count + 1 >= MaxPreviewEntries) {
      PreviewIsPrefix(formatted[1..], if formatted[0] != "" then count + 1 else count);
    }
  }

  /** Together with the `count` already shown, the preview holds at most the limit of non-empty lines. */
  lemma {:induction false} PreviewBound(formatted: seq<string>, count: nat)
    requires count < MaxPreviewEntries
    ensures count + NonEmpty(PreviewFrom(formatted, count)) <= MaxPreviewEntries
    decreases |formatted|
  {
    if formatted != [] && !(formatted[0] != "" && count + 1 >= MaxPreviewEntries) {
      var next := if formatted[0] != "" then count + 1 else count;
      PreviewBound(formatted[1..], next);
      assert ([formatted[0]] + PreviewFrom(formatted[1..], next))[1..] == PreviewFrom(formatted[1..], next);
    }
  }

  /** When fewer non-empty lines remain than the limit allows, every line is shown. */
  lemma {:induction false} PreviewShowsAll(formatted: seq<string>, count: nat)
    requires count + NonEmpty(formatted) < MaxPreviewEntries
    ensures PreviewFrom(formatted, count) == formatted
    decreases |formatted|
  {
    if formatted != [] {
      var next := if formatted[0] != "" then count + 1 else count;
      PreviewShowsAll(formatted[1..], next);
      assert [formatted[0]] + formatted[1..] == formatted;
    }
  }

  /** A preview that stops early has reached the limit, on a non-empty line. */
  lemma {:induction false} PreviewStopsAtLimit(formatted: seq<string>, count: nat)
    requires PreviewFrom(formatted, count) != formatted
    ensures var p := PreviewFrom(formatted, count);
      p != [] && p[|p| - 1] != "" && count + NonEmpty(p) >= MaxPreviewEntries
    decreases |formatted|
  {
    var next := if formatted[0] != "" then count + 1 else count;
    if !(formatted[0] != "" && count + 1 >= MaxPreviewEntries) {
      var rest := PreviewFrom(formatted[1..], next);
      assert rest != formatted[1..] by {
        assert [formatted[0]] + formatted[1..] == formatted;
      }
      PreviewStopsAtLimit(formatted[1..], next);
      var p := [formatted[0]] + rest;
      assert p[1..] == rest;
    }
  }

  /** The path a converted playlist is written to: its base name inside the music directory. */
  function OutputPath(cfg: Config, srcPlaylist: string): string {
    Join(GetMusicDir(cfg), Base(srcPlaylist))
  }

  /**
   * A playlist `dir/name`, with `name` a proper file name, is written directly
   * inside the music directory under that same name.
   */
  lemma OutputPathShape(cfg: Config, dir: string, name: string)
    requires IsName(name)
    ensures OutputPath(cfg, dir + "/" + name) == GetMusicDir(cfg) + "/" + name
    ensures Base(OutputPath(cfg, dir + "/" + name)) == name
  {
    BaseAfterSeparator(dir, name);
    JoinName(GetMusicDir(cfg), name);
    JoinNameShape(GetMusicDir(cfg), name);
  }

  /** A playlist given by a bare file name, as a relative glob yields it, is written under that name in the music directory. */
  lemma OutputPathOfName(cfg: Config, name: string)
    requires IsName(name)
    ensures OutputPath(cfg, name) == GetMusicDir(cfg) + "/" + name
  {
    BaseOfName(name);
    JoinName(GetMusicDir(cfg), name);
  }

  /** What converting one playlist does: a dry-run preview, or the text written to its output path. */
  datatype Conversion = Previewed(path: string, shown: seq<string>) | Written(path: string, text: string)

  /** `writeConvertedPlaylist`, with the creation of the directory and the file left to the caller. */
  method WriteConvertedPlaylist(cfg: Config, srcPlaylist: string, originalLines: seq<string>) returns (r: Conversion)
    ensures r.path == OutputPath(cfg, srcPlaylist)
    ensures cfg.dryRun <==> r.Previewed?
    ensures r.Previewed? ==> r.shown == Preview(originalLines)
    ensures r.Written? ==> r.text == PlaylistText(originalLines)
  {
    var outPath := OutputPath(cfg, srcPlaylist);
    if cfg.dryRun {
      var shown := PreviewPlaylist(outPath, originalLines);
      return Previewed(outPath, shown);
    }
    var text := BuildPlaylistText(originalLines);
    return Written(outPath, text);
  }
}

# m3u-sync in Dafny

A model of the core of m3u-sync, a one-file Go tool (`main.go`) that copies the
music referenced by a set of `.m3u8` playlists onto a USB volume. The tool:

- reads the playlists matched by a glob and parses them into retained lines and
  absolute track paths;
- folds the cleaned tracks into one set;
- links every existing track into a temporary staging tree;
- has `rsync -avL` copy that tree into `<usbRoot>/Music`;
- deletes `.m3u8` files there that no current playlist produces;
- writes each playlist again with its track paths made relative (`./…`), or in a
  dry run logs a preview of at most five entries instead.

The model follows that pipeline module by module:

- `wrappers.dfy`: `Option` and `Result`.
- `strings.dfy`: the parts of Go's `strings` and `unicode` packages that are used.
  - `IsSpace` lists exactly the code points `unicode.IsSpace` accepts.
  - `TrimSpace`, `HasPrefix`, `HasSuffix`, `TrimPrefix`.
  - The CR LF / CR replacer, `strings.Split` and `strings.Join` with a one-rune
    separator.
- `filepath.dfy`: `path/filepath` on Unix.
  - `IsAbs`, `Join` and `Base`.
  - `Clean`, modelled as a fold of its lexical rules over the `/`-separated
    elements, with a canonical-form predicate that gives idempotence.
- `settings.dfy`: `Config`, `validateArgs`, `getMusicDir`.
- `normalizer.dfy`: `cleanPath`.
- `parser.dfy`: `parsePlaylistFile`.
  - The file content is an input; `None` means it could not be read.
  - `ParseFrom` is the front-consuming specification.
  - `ParsePlaylistFile` is the Go loop, proved equal to it.
  - `OriginsFrom` is a ghost record of which split line each retained line
    came from, so the properties can be stated.
- `collector.dfy`: `collectUniqueFiles`, with the glob's result as an input.
  `AddCleaned` is its inner loop over the tracks of one playlist.
- `staging.dfy`: the link path of `createSymlinks` and its loop over the unique
  set. Which sources exist is an input set.
- `transfer.dfy`: `buildRsyncArgs` and the argument vector `syncWithRsync` passes.
- `reconciler.dfy`: `createExpectedPlaylistsMap` and `cleanupOldPlaylists`.
  - The device's music directory is a class whose `entries` map names to
    "is a directory".
  - `os.Remove` removes one entry, or fails for a name in `locked`.
- `rewriter.dfy`: `formatPlaylistLine`, the text `writeConvertedPlaylist` builds,
  and `previewPlaylist`. The preview returns the lines it would log.

Go maps are Dafny maps or sets. Loops over them pick an arbitrary remaining
element with `:|`, so nothing depends on Go's iteration order.

Three details of main.go a reader might not expect:

- `cleanPath` trims and deletes control runes, but it does not clean the path
  lexically (main.go:133-141). `Clean` is applied only to marker paths (main.go:115)
  and in the collector (main.go:84).
- A `#EXTINF` marker line is kept in trimmed form, not verbatim (main.go:103, 111).
- A plain absolute line goes into the tracks through `cleanPath` only, not
  `Clean` (main.go:126). The collector cleans it afterwards.

## Model

| member | source | states |
|---|---|---|
| Strings.TrimSpaceTrims | main.go:103 | `strings.TrimSpace` leaves no white space at either end, and leaves an already trimmed string unchanged |
| Strings.TrimSpaceEmpty | main.go:103-108 | a line trims to "" exactly when every rune of it is white space, so exactly the all-space lines are skipped |
| Strings.TrimSpaceChars | main.go:103 | trimming introduces no rune |
| Strings.TrimSpaceIdempotent | main.go:135-140 | trimming twice is the same as trimming once |
| Strings.NormalizeLineEndings | main.go:96 | no CR is left, the text never grows, and a text without CR is unchanged |
| Strings.NormalizeChars | main.go:96 | the only rune the replacer introduces is LF |
| Strings.NormalizeAppend | main.go:96 | the replacer works piece by piece: a concatenation normalises to the concatenation of its normalised parts, unless a CR LF straddles the cut |
| Strings.NormalizeCR | main.go:96 | a leading CR becomes one LF and takes a directly following LF with it |
| Strings.NormalizeBreak | main.go:96 | wherever it stands, a CR, or a CR LF, becomes exactly one LF, and the text on both sides is normalised on its own |
| Strings.Split | main.go:97 | splitting always gives at least one piece |
| Strings.SplitPieces | main.go:97 | no piece holds the separator |
| Strings.SplitJoin | main.go:97 | joining the pieces with the separator gives the text back |
| Strings.SplitJoinWith | main.go:97 | splitting a join of separator-free parts gives the parts back |
| FilePath.Clean | main.go:115 | `filepath.Clean` never returns "", and its result is absolute exactly when its input is |
| FilePath.CleanIdempotent | main.go:84 | cleaning twice is the same as cleaning once |
| FilePath.CleanNoControl | main.go:115 | cleaning a path free of control runes keeps it free of them |
| FilePath.CleanConcat | main.go:155 | a clean path other than "/" and "." followed by a clean absolute path other than "/" is clean |
| FilePath.JoinName | main.go:227 | joining a clean directory other than "/" and "." with an entry name just inserts one separator |
| FilePath.JoinNameShape | main.go:233 | joining any directory with an entry name gives a clean path that is not "/" or "." and whose base is that name |
| FilePath.JoinSpecialBase | main.go:227 | joining a clean directory with ".", "/" or ".." never gives that directory followed by an entry name |
| FilePath.BaseAfterSeparator | main.go:246 | the base of a path ending in a separator and a name is that name |
| FilePath.BaseOfName | main.go:246 | the base of a bare entry name is the name itself |
| FilePath.CleanKeepsSpaceElement | main.go:115 | `filepath.Clean` keeps an element that is only white space: "./ /." cleans to " " |
| FilePath.Base | main.go:227 | `filepath.Base` never returns "", and returns either "/" or a string without separators |
| Settings.ValidateArgs | main.go:58-66 | no error exactly when the glob and the USB root are both given; a missing glob is reported before a missing root, each with its message |
| Settings.GetMusicDir | main.go:232-234 | the music directory is clean, is neither "/" nor ".", and has base name "Music" |
| Normalizer.CleanPath | main.go:133-141 | the sanitised path holds no rune below 32 and no DEL |
| Normalizer.CleanPathTrimmed | main.go:133-141 | the sanitised path has no white space at either end |
| Normalizer.CleanPathIdempotent | main.go:133-141 | sanitising twice is the same as sanitising once |
| Normalizer.CleanPathChars | main.go:135-140 | sanitising introduces no rune |
| Normalizer.RemoveControlsAppend | main.go:135-139 | the control-rune filter works rune by rune, so the runes it keeps stay in their order |
| Normalizer.CleanPathKeeps | main.go:133-141 | a trimmed path without control runes comes back unchanged |
| Normalizer.CleanPathOfTrimmed | main.go:140 | trimming before sanitising makes no difference |
| Normalizer.CleanPathOfBlank | main.go:115 | a blank line sanitises to "" (so a blank line after a marker becomes ".") |
| Normalizer.CleanPathKeepsRoot | main.go:125-126 | a line that is absolute once trimmed stays absolute after sanitising |
| Parser.SplitLines | main.go:96-97 | normalising and splitting gives at least one line |
| Parser.SplitLinesNoBreaks | main.go:96-97 | no split line holds LF or CR |
| Parser.ParsePlaylistFile | main.go:90-131 | an unreadable file gives the error and two empty lists; otherwise the loop's lines and tracks equal the front-consuming parse of the content |
| Parser.OriginsCount | main.go:102-128 | there is one origin per retained line, and never more retained lines than split lines |
| Parser.OriginsOrdered | main.go:102-128 | retained lines come from strictly increasing split positions, so input order is kept |
| Parser.LineOrigins | main.go:103-111 | a retained line that is not a marker's path is its split line trimmed; it is not blank; it is a marker exactly when recorded as one |
| Parser.PathOrigins | main.go:115-117 | a marker's path line is never first, and it is `Clean(cleanPath(...))` of a later split line |
| Parser.MarkerTakesNextLine | main.go:110-121 | a retained marker is the last retained line exactly when it is the last split line; otherwise the next retained line is the path made from the next split line |
| Parser.NonBlankRetained | main.go:102-128 | every non-blank split line is retained, trimmed or as a marker's path |
| Parser.TracksFromLines | main.go:110-127 | the tracks are the retained lines' contributions in order: an absolute marker path as it is, an absolute line not starting with '#' sanitised, nothing from '#' lines, relative lines or markers |
| Parser.TracksWellFormed | main.go:118-127 | every track is absolute and free of control runes |
| Parser.NoEmptyLine | main.go:106-117 | no retained line is "" |
| Parser.BlankPathLine | main.go:110-117 | a retained line can still be blank: after a marker, the path line "./ /." is retained as " " |
| Parser.LinesSingle | main.go:97-128 | retained lines hold no LF when the split lines hold none |
| Parser.BlankAfterMarker | main.go:110-117 | a blank line after a marker is consumed and retained as "." |
| Collector.CollectUniqueFiles | main.go:68-88 | an error with "no playlists matched: <glob>" exactly when the glob fails or matches nothing; otherwise the per-playlist lines and the unique set of the fold over the matches in order |
| Collector.AddCleaned | main.go:83-85 | the inner loop adds exactly the cleaned form of every track |
| Collector.LinesByPathKeys | main.go:77-79 | the per-playlist map has exactly the matched paths as keys, unreadable playlists included |
| Collector.LinesByPathLast | main.go:79 | a playlist's entry holds the lines of its last occurrence in the match list |
| Collector.UniqueMembers | main.go:83-85 | a path is in the unique set exactly when some playlist has a track that cleans to it |
| Collector.UniqueWellFormed | main.go:84 | every unique path is absolute, free of control runes and already clean |
| Staging.LinkMirrorsSource | main.go:155 | for a clean staging directory, a clean absolute source other than "/" is linked at the directory's path followed by the source's path |
| Staging.LinksDistinct | main.go:155 | distinct such sources get distinct link paths |
| Staging.LinkOfRoot | main.go:155 | the source "/" maps onto the staging directory itself |
| Staging.CreateSymlinks | main.go:143-168 | a failed temporary directory is the only error; every link is made at the link path of an existing unique source, never at the staging directory itself; every existing source whose link path is not the directory gets one |
| Staging.StagedExactly | main.go:149-166 | when the sources are clean, absolute and not "/", every existing source has a link of its own, pointing to it |
| Transfer.BuildRsyncArgs | main.go:184-190 | the arguments are "-avL", "--progress", "--delete", then "--dry-run" exactly in a dry run, then the source and the destination with a trailing separator: 6 arguments in a dry run, otherwise 5 |
| Transfer.SyncArgs | main.go:170-176 | the destination argument is the music directory with a trailing separator, and "--dry-run" is passed exactly in a dry run |
| Reconciler.CreateExpectedPlaylistsMap | main.go:224-230 | the expected set is the join of the music directory with the base name of every collected playlist |
| Reconciler.MusicDirectory.Remove | main.go:216 | removal succeeds exactly for a present, unlocked name and then deletes only that entry; a failed removal changes nothing |
| Reconciler.CleanupOldPlaylists | main.go:192-222 | an unlisted directory is the only error and changes nothing; a dry run changes nothing; otherwise exactly the stale entries that can be removed are deleted, and every other entry is kept as it was |
| Reconciler.JoinBaseInjective | main.go:206-227 | in the music directory, a playlist's base name and an entry name give the same path only when they are equal |
| Reconciler.ExpectedNeverStale | main.go:206-208 | the base name of a collected playlist is never stale, so cleanup keeps the file it is written to |
| Reconciler.StaleIffUnmatchedBaseName | main.go:201-208 | an entry name is stale exactly when it is a file with the `.m3u8` extension that is the base name of no collected playlist |
| Rewriter.FormatPlaylistLine | main.go:272-281 | a formatted line is "", or starts with '#', or starts with "./" |
| Rewriter.FormatBlank | main.go:273-275 | a line formats to "" exactly when it is blank |
| Rewriter.FormatComment | main.go:276-277 | a '#' line is returned trimmed, and formatting it again changes nothing |
| Rewriter.FormatTrack | main.go:278-279 | any other line becomes "./" followed by the trimmed line with one leading separator removed; an absolute line becomes "." followed by it |
| Rewriter.FormatSingle | main.go:265 | formatting introduces no LF |
| Rewriter.BuildPlaylistText | main.go:263-266 | the builder loop produces every formatted line followed by LF |
| Rewriter.PlaylistTextIsJoin | main.go:263-268 | the written text is the formatted lines joined by LF, with a final LF |
| Rewriter.WrittenLinesRoundTrip | main.go:263-268 | splitting the written text on LF gives the formatted lines and one empty last piece, when no line holds an LF |
| Rewriter.PreviewPlaylist | main.go:283-298 | the loop logs exactly the preview of the formatted lines, stopping right after the fifth non-empty one |
| Rewriter.PreviewIsPrefix | main.go:286-297 | the preview is a prefix of the formatted lines |
| Rewriter.PreviewBound | main.go:290-295 | the preview holds at most five non-empty lines |
| Rewriter.PreviewShowsAll | main.go:286-297 | with fewer than five non-empty lines, every line is shown |
| Rewriter.PreviewStopsAtLimit | main.go:291-295 | a preview that stops early ends with its fifth non-empty line |
| Rewriter.OutputPathShape | main.go:245-246 | a playlist `dir/name`, with `name` an entry name, is written directly inside the music directory under that same name |
| Rewriter.OutputPathOfName | main.go:245-246 | a playlist given by a bare entry name, as a relative glob yields it, is written inside the music directory under that name |
| Rewriter.WriteConvertedPlaylist | main.go:244-270 | the output path is the base name under the music directory; a dry run gives the preview, otherwise the text to write |

## Left out

- `main`, flag parsing, `log.Fatal` and the order of the pipeline (main.go:25-56): command-line glue.
- `os.ReadFile`: the content is an input, and `None` stands for a read error; the error value itself is not modelled.
- `filepath.Glob`: the matched paths with their contents are an input, and `None` stands for a malformed pattern; glob matching itself is not modelled.
- `log.Printf` output: not modelled. The preview returns the entry lines it logs; its header line is represented by the output path.
- `os.MkdirTemp`: the created directory is an input, and `None` stands for failure. The error text is the prefix `main` logs; the operating system's error is not modelled.
- `os.Stat`: the set `present` of existing sources.
- `os.MkdirAll` in `createSymlinks`: the directories it creates are not modelled, and it is taken to succeed. Take two sources `/a` and `/a/b`. The program makes only one of the two links: whichever comes second fails in `os.Symlink`, because its link path already exists, either through the link `tmp/a` or as the directory `MkdirAll` made. The model makes both links.
- `os.Symlink`: it is taken to succeed unless the link path is already taken.
- `defer os.RemoveAll(tmpDir)`: not modelled.
- `syncWithRsync`: the directory creation and the rsync process (main.go:170-182) are external; only the argument vector is modelled.
- `cleanupOldPlaylists`: an `os.ReadDir` failure is the flag `readable`, and the returned error is reduced to a flag. The listing order does not matter, because each entry is decided on its own.
- `writeConvertedPlaylist`: `os.MkdirAll`, `os.Create` and `WriteString` and their errors (main.go:253-269) are not modelled; the method returns the text that would be written.
- `writeAllPlaylists` (main.go:236-242): not modelled. It iterates a Go map, so when two playlists share a base name, which one is written last depends on Go's random iteration order.
- Invalid UTF-8: strings are sequences of code points. The byte-level behaviour of `TrimSpace` and `strings.Map` on invalid input is not modelled.
- Parser.MarkerTakesNextLine: states the forward direction (a marker is followed by its path). That each path line is directly preceded by its marker is not stated separately; `Parser.PathOrigins` states only that a path line is never the first retained line.

/** The tool's configuration, its validation and the destination music directory (main.go). */
module Settings {
  import opened Wrappers
  import opened FilePath

  const TempDirPrefix := "music_sync_*"
  const UsbMusicDir := "Music"
  const MaxPreviewEntries := 5
  const PlaylistExtension := ".m3u8"

  /** The three command-line settings: playlist glob, USB root and the dry-run switch. */
  datatype Config = Config(playlistGlob: string, usbRoot: string, dryRun: bool)

  const GlobRequired := "playlist glob required (e.g. --playlist \"~/Playlists/*.m3u8\")"
  const RootRequired := "usbRoot required (e.g. --usbRoot /Volumes/UNTITLED)"

  /** `validateArgs`: both the glob and the USB root must be given; the glob is checked first. */
  function ValidateArgs(cfg: Config): (err: Option<string>)
    ensures err == None <==> cfg.playlistGlob != "" && cfg.usbRoot != ""
    ensures cfg.playlistGlob == "" ==> err == Some(GlobRequired)
    ensures cfg.playlistGlob != "" && cfg.usbRoot == "" ==> err == Some(RootRequired)
  {
    if cfg.playlistGlob == "" then Some(GlobRequired)
    else if cfg.usbRoot == "" then Some(RootRequired)
    else None
  }

  /**
   * `getMusicDir`: the "Music" directory under the USB root. It is already
   * clean, it is never "/" or ".", and its base name is "Music".
   */
  function GetMusicDir(cfg: Config): (dir: string)
    ensures Clean(dir) == dir
    ensures dir != "/" && dir != "."
    ensures Base(dir) == UsbMusicDir
  {
    JoinNameShape(cfg.usbRoot, UsbMusicDir);
    Join(cfg.usbRoot, UsbMusicDir)
  }
}

/** The rsync argument vector built by `buildRsyncArgs` (main.go); running rsync is not modelled. */
module Transfer {
  import opened Settings

  /** The fixed leading options: archive with links followed, progress, and deletion of extraneous files. */
  const BaseOptions: seq<string> := ["-avL", "--progress", "--delete"]
  const DryRunOption := "--dry-run"

  /**
   * `buildRsyncArgs`: the three base options, "--dry-run" exactly when asked,
   * then the source and the destination, each with a trailing separator so
   * that rsync copies directory contents.
   */
  function BuildRsyncArgs(dryRun: bool, srcDir: string, destDir: string): (args: seq<string>)
    ensures |args| == if dryRun then 6 else 5
    ensures args[..3] == BaseOptions
    ensures dryRun ==> args[3] == DryRunOption
    ensures DryRunOption in args <==> dryRun
    ensures args[|args| - 2] == srcDir + "/" && args[|args| - 1] == destDir + "/"
  {
    var flags := if dryRun then BaseOptions + [DryRunOption] else BaseOptions;
    var args := flags + [srcDir + "/", destDir + "/"];
    assert DryRunOption[|DryRunOption| - 1] == 'n';
    assert (srcDir + "/")[|srcDir|] == '/' && (destDir + "/")[|destDir|] == '/';
    args
  }

  /** The arguments `syncWithRsync` passes: the staged directory is copied into the music directory. */
  function SyncArgs(cfg: Config, srcDir: string): (args: seq<string>)
    ensures |args| >= 5 && args[|args| - 1] == GetMusicDir(cfg) + "/"
    ensures DryRunOption in args <==> cfg.dryRun
  {
    BuildRsyncArgs(cfg.dryRun, srcDir, GetMusicDir(cfg))
  }
}

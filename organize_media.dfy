/**
 * The stand-alone script version of the organiser: the same engine, driven by
 * module-level settings instead of parameters, with its own copy of the
 * extension sets. As shipped it is a dry run that prompts for every folder.
 */
module OrganizeMedia {
  import opened Constants
  import opened FileSystem
  import opened Organize

  const Root: Path := ["/", "Volumes", "Family", "Incoming"]
  const PhotoRoot: Path := ["/", "Volumes", "Family", "Photos"]
  const VideoRoot: Path := ["/", "Volumes", "Family", "Videos"]

  const ScriptPhotoExt: set<string> := {".jpg", ".jpeg", ".png", ".heic", ".tif", ".tiff", ".nef", ".cr2", ".arw"}
  const ScriptVideoExt: set<string> := {".mp4", ".mov", ".avi", ".mkv", ".mts"}

  const DryRun: bool := true
  const Interactive: bool := true

  /** The settings `main` runs with. */
  const Settings: Config := Config(Root, PhotoRoot, VideoRoot, DryRun, Interactive)

  /** The script's extension sets are the shared ones, so the shared classifier applies. */
  lemma ScriptExtensionsAgree()
    ensures ScriptPhotoExt == PhotoExt && ScriptVideoExt == VideoExt
  {
  }

  /** `main`: `organize` with the module settings. */
  method RunScript(fs: FileSystem, names: seq<string>, lines: seq<string>) returns (reports: seq<FolderReport>)
    modifies fs
    ensures RunResult(fs.Snapshot(), reports) == OrganizeSpec(old(fs.Snapshot()), Settings, names, lines)
  {
    reports := Organize.Organize(fs, Settings, names, lines);
  }

  /** As configured, the script moves no file, whatever the operator answers. */
  lemma ScriptMovesNothing(d: Disk, names: seq<string>, lines: seq<string>)
    requires d.Valid()
    ensures OrganizeSpec(d, Settings, names, lines).disk.files == d.files
  {
    OrganizeKeepsFiles(d, Settings, names, lines);
  }
}

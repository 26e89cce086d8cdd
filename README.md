# Media library janitor, modelled in Dafny

The repository is a set of command-line tools for a family photo and video library:

- `organize` files incoming folders into `root/YYYY/MM/`;
- `assign_date` and `fix_dates` correct file modification times;
- `health_check` finds and deletes damaged or suspiciously small media;
- `dedupe` removes byte-identical copies;
- `flatten` collapses a folder tree into one folder, keeping the bigger of two files with the same name;
- `count` prints per-folder photo, video and other counts.

This project models the decision logic and the file-system effects of each tool. It proves what each one promises.

## How the system is represented

- **File system.** The file system is a value `FileSystem.Disk`: an ordered list of files, a set of directories, and the set of `pinned` directories that `os.rmdir` cannot remove even when empty. A path is a sequence of components, so `os.path.join(root, name)` is `root + [name]`.
  - The order of the file list is the order in which `os.walk` yields files.
  - `Walk(root)` is the list of files strictly under `root`.
  - The tools that change the disk go through the class `FileSystem.FileSystem`. Its methods `MakeDirs`, `Move`, `Remove`, `RemoveDir` and `SetMtime` update the disk in place.
- **File records.** Everything the tools learn from outside Python is a field of the file's record `FileInfo`:
  - the size and modification time (`getsize`, `getmtime`) and the error these raise;
  - the EXIF capture date;
  - the MD5 digest, which is empty when the file cannot be read;
  - what the imaging library reports;
  - whether the entry is a regular file;
  - whether `os.remove` or `os.utime` fails on it.

  These values are read, never computed.
- **Dates.** Dates are records of six integers. `DateTime` is the subset that `datetime(...)` accepts. `Dates.MakeDate` returns `None` where the constructor raises `ValueError`.
- **Operator input.** Input to the prompts is a list of lines. Running out of lines stands for the `EOFError` that `input()` raises, which ends the run.
- **Pure functions and imperative methods.**
  - A pure decision in the source (a date parser, the threshold lookup, the prompt mapping, the vote for a month) is a function with lemmas.
  - A loop that updates counters, a dictionary or the disk is a method with loop invariants. Its `ensures` ties the result and the new disk to a specification function, and the properties are proved about that function.
  - `Stats` is a class whose `+=` updates its three counters in place.
- **Shared code across scripts.**
  - `organize.py` and the stand-alone `organize_media.py` have the same functions. They differ only in that the script reads module globals. Both are modelled by the module `Organize`, with the globals lifted into a `Config` record; `OrganizeMedia` supplies the script's settings.
  - `count.py` and `folder_counts.py` are one module, `FolderCounts`.
  - `flatten.py` and `folder_flatten.py` share `Flatten`. `FolderFlatten` fixes the extension filter to `None`.
  - The copies of the extension sets in `common.py`, `organize_media.py` and `folder_counts.py` are proved equal to those of `constants.py`.

Where the documentation and the code disagree, the model follows the code:

- a bare year `YYYY` means 1 July, not the June that the docstring of `parse_date_string` gives;
- an unrecognised answer to the organize prompt accepts the folder;
- there is no "view" answer in that prompt, no set of already-processed folders and no sweep that removes empty folders afterwards;
- the final fallback of `get_size_threshold` (key 1990, absent from both tables) is unreachable, and the model shows why;
- the group of a "Suspiciously small file" or "Suspiciously low resolution" issue is the text before the first ":" in its message, which includes the file's own numbers. Only access failures, corrupt images and zero-byte files share one group per kind.

## Model

| member | source | states |
|---|---|---|
| Constants.ExtensionCounts | constants.py:9-21 | There are 9 photo extensions and 5 video extensions. |
| Constants.ExtensionsDisjoint | constants.py:9-21 | No extension is both a photo and a video extension. |
| Constants.ExtensionsWellFormed | constants.py:9-21 | Every extension starts with "." and is already lower case. |
| Constants.BoundariesAreSortedKeys | constants.py:37-54 | The ascending boundary lists are exactly the keys of the two threshold tables, and both end at `sys.maxsize`. |
| Constants.MaxSizeIsTopKey | constants.py:43-53 | `sys.maxsize` is a key of both tables and no key exceeds it, so every year has a boundary. |
| Constants.ThresholdsIncrease | constants.py:37-54 | In both tables, minimum bytes, width and height strictly increase with the boundary. |
| Common.CommonExtensionsAgree | common.py:8-20 | The extension sets of `common.py` are those of `constants.py`. |
| Common.Tally | count.py:46-51 | One visible file adds one to exactly the counter of its kind. |
| Common.Stats.constructor | common.py:36-38 | A new `Stats` has all three counters at zero. |
| Common.Stats.AddAssign | common.py:40-44 | `+=` adds photo, video and other counts component-wise and returns the same object, also when the operand is itself. The same code is at `count.py:19-23`, `folder_counts.py:28-32`. |
| Common.Stats.Count | count.py:46-51 | Incrementing one counter adds the tally of that kind. |
| Media.SplitExt | organize.py:59 | `splitext` gives either nothing, or a suffix of the name that starts with ".". |
| Media.Suffix | count.py:44 | `Path.suffix` gives either nothing, or a suffix of the name that starts with ".". |
| Media.LowerSplitExt | flatten.py:28 | Lower-casing before or after `splitext` gives the same extension. |
| Media.SuffixOfLower | count.py:44 | For a visible name, `Path(name).suffix.lower()` differs from `splitext(name.lower())[1]` only for a name ending in ".". |
| Media.SuffixKindAgrees | count.py:44-51 | For a visible name, the folder counter classifies a file exactly as the other tools do. |
| Media.MediaInSubset | assign_date.py:114-122 | The collected files are visible media files of the walk, never more files than the walk has. |
| Dates.MakeDate | assign_date.py:36 | `datetime(...)` succeeds exactly for valid calendar fields, and then holds exactly those fields. |
| FolderCounts.ScriptExtensionsAgree | folder_counts.py:7-19 | The script's own extension sets are the shared ones. |
| FolderCounts.CountOfTotal | count.py:40-51 | A hidden file counts nothing, and any other file counts exactly one. |
| FolderCounts.CountOfKind | count.py:44-51 | A visible file is counted under the kind the other tools give it. |
| FolderCounts.LocalCountsTotal | count.py:40-51 | A folder's own counts total its number of visible files. The same code is at `folder_counts.py:49-60`. |
| FolderCounts.CountFiles | count.py:37-51 | The file loop leaves a fresh `Stats` holding the folder's own counts. |
| FolderCounts.GetFolderStats | count.py:26-61 | The dictionary has an entry for exactly the folders of the walk. Each entry holds the aggregate the bottom-up rule gives: own files plus recorded children. |
| FolderCounts.AggregateKeys | folder_counts.py:63-68 | Every folder the walk visits, and no other, gets an entry. |
| FolderCounts.TreeAggregate | count.py:35-59 | Recording the bottom-up walk of a tree gives its root the count of every visible file in the tree, hidden folders included, and changes no entry outside it. |
| FolderCounts.ChildrenAggregate | count.py:53-59 | Each child folder's walk records that child's subtree count before the parent reads it. |
| FolderCounts.RootTotal | count.py:35 | On a bottom-up walk of a tree, the root's entry is the subtree count. The same code is at `folder_counts.py:44-68`. |
| Organize.ClassifyCounts | organize.py:55-69 | `classify_folder` counts visible photos and videos and adds one date per media file, so the number of dates is photos plus videos. Hidden and other files add nothing. |
| Organize.ClassifyFile | organize.py:56-67 | The loop body fails exactly when the file is a visible photo or video whose date cannot be read. Otherwise it adds the file to the classification. The date comes from `getmtime` at `organize.py:46`/`67`, which nothing catches. |
| Organize.ClassifyFolder | organize.py:49-69 | The loop fails exactly when some file of the walk has an unreadable date. Otherwise it returns the classification of the walk. |
| Organize.BestFrom | organize.py:74-75 | Scanning in first-occurrence order yields a bucket of maximal count, with no equally frequent bucket occurring earlier. |
| Organize.ChooseTargetDate | organize.py:72-75 | The chosen (year, month) occurs among the dates and has maximal count. Every bucket first seen earlier is strictly less frequent. The same code is at `organize_media.py:69-72`. |
| Organize.ChosenBucketOccurs | organize.py:72-75 | The chosen bucket is that of at least one date. |
| Organize.PromptUser | organize.py:78-95 | An answer consumes one line, or two for a rename, and never more lines than exist. |
| Organize.ReadChoice | organize.py:88-95 | Once the first line is normalised, only a rename reads another line. |
| Organize.PromptUnknownAccepts | organize.py:95 | Any answer other than r, u or s accepts under the original name. The same code is at `organize_media.py:80-89`. |
| Organize.PromptEmptyLineAccepts | organize.py:86-95 | An empty line accepts under the original name. |
| Organize.PromptUngroupSkip | organize.py:91-94 | "u" ungroups and "s" skips, both under the original name. |
| Organize.PromptBlankRenameKeepsName | organize.py:88-90 | "r" followed by a blank name renames to the original name. The same code is at `organize_media.py:82-84`. |
| Organize.PromptRenameName | organize.py:88-90 | "r" followed by a non-blank name renames to that name stripped, which is never empty. |
| Organize.PromptIgnoresPadding | organize.py:86 | Whitespace around the answer makes no difference. |
| Organize.PromptReadsStripped | organize.py:86 | The prompt sees its first line only through `strip()`. |
| Organize.DestDir | organize.py:145 | The bucket directory is the root followed by two components. |
| Organize.DestDirInjective | organize.py:119 | Different (year, month) buckets under one root are different directories. |
| Organize.MoveEntireFolder | organize.py:141-157 | The method's effect and outcome are those of `move_entire_folder`: create the bucket directory, even in a dry run; leave an existing destination alone, where the names "." and ".." always count as existing; otherwise move the folder unless dry. |
| Organize.MoveEntireFolderKeeps | organize.py:145-157 | Moving a folder keeps the disk valid and every file record. With an existing destination or in a dry run, no file moves. The same code is at `organize_media.py:130-144`. |
| Organize.MoveEntireFolderEffect | organize.py:141-157 | The destination is `dest_root/Y/MM/name`. "Already exists" is reported iff that path exists once the bucket directory is made, or the name is "." or "..", which `os.path.join` turns into the bucket directory or its parent. Apart from a real move, the disk afterwards is the disk with the bucket directory made, dry run included. A real move happens iff the run is not dry, the name is neither "." nor "..", and the destination is free. After it, every file under the folder is at its rebased path under the destination. The same code is at `organize_media.py:130-144`. |
| Organize.MoveFilesSpec | organize.py:102-131 | The scatter loop reports at most one outcome per file of the walk. |
| Organize.MoveIndividualFiles | organize.py:98-138 | The method's effect and outcomes are those of `move_individual_files`, including the stop at an unreadable date. A failing `listdir` or `rmdir` of the source folder is caught and leaves it in place. |
| Organize.MoveFiles | organize.py:102-131 | The loop over a walk taken before the first move computes the scatter specification. It returns right after an unreadable date. |
| Organize.MoveOneFile | organize.py:103-131 | The loop body computes the step specification for one file, with the date check before `makedirs`. |
| Organize.MoveFileDestination | organize.py:104-131 | A visible photo or video whose date cannot be read stops with the disk unchanged. Otherwise a photo goes to `photo_root/Y/MM/name` and a video to `video_root/Y/MM/name`, by its own date. An existing destination is skipped. A real move puts the file there. The same code is at `organize_media.py:91-121`. |
| Organize.MoveFileOutcome | organize.py:110-115 | A step reports the date error exactly when its file is a visible photo or video with an unreadable date. |
| Organize.MoveFilesStops | organize.py:102-131 | The i-th outcome is the date error iff the i-th file's date fails. Only the last outcome can be that error. A loop reporting fewer files than its walk ended with it. |
| Organize.MoveFilesOutcomeAt | organize.py:102-115 | The outcome at one position is the date error iff that file's date fails, and it is then the last outcome. |
| Organize.MoveFilesShort | organize.py:102-115 | A loop that stops before the end of the walk stopped on the date error. |
| Organize.ScatterAfterClassify | organize.py:55-67 | A folder whose classification succeeded is scattered without a date error, with one outcome per file. The same dates are read at `organize.py:110-115`. |
| Organize.MoveFileKeeps | organize.py:119-131 | One step keeps the disk valid and every file record. Only a real move changes the files, and a dry run never moves. |
| Organize.MoveFilesKeeps | organize.py:102-131 | The loop keeps the disk valid and every file record, and a dry run moves nothing. |
| Organize.MoveIndividualFilesKeeps | organize.py:98-138 | Scattering a folder loses, duplicates and overwrites no file, and a dry run leaves all in place. |
| Organize.RemovesOnlyEmptySource | organize.py:133-138 | The source folder disappears exactly when the loop did not raise, the run is real, the folder is empty after the loop, and it is not pinned. For a pinned folder, the caught `rmdir` failure leaves the disk as the loop left it. The same code is at `organize_media.py:123-128`. |
| Organize.Decide | organize.py:195-199 | The action for a folder never consumes more input than exists. |
| Organize.OrganizeRun | organize.py:177-211 | There is at most one report per entry of the source directory. |
| Organize.Organize | organize.py:160-211 | The method's effect and reports are those of `organize`. The run ends at the end of input or at a folder whose classification raised. |
| Organize.OrganizeOne | organize.py:178-211 | The loop body computes one step of the run, including the failed classification. |
| Organize.OrganizeRunUnfold | organize.py:177-211 | A step that does not end the run is followed by the run over the remaining entries. |
| Organize.ApplyChoiceKeeps | organize.py:201-211 | Any action keeps the disk valid and every file record, and a dry run moves nothing. |
| Organize.OrganizeStepKeeps | organize.py:177-211 | One step keeps the disk valid and every file record, and a dry run moves nothing. |
| Organize.OrganizeRunKeeps | organize.py:177-211 | The loop keeps the disk valid and every file record, and a dry run moves nothing. |
| Organize.OrganizeKeepsFiles | organize.py:160-211 | `organize` loses, duplicates and overwrites no file, and a dry run leaves every file where it was. |
| Organize.OrganizeStepDecision | organize.py:177-199 | Each entry's report has these cases:<br>• a non-directory, or a four-digit name, is passed over before classification;<br>• a folder with an unreadable media date ends the run;<br>• a folder without media is skipped;<br>• otherwise the root is the photo root iff photos >= videos;<br>• without prompting, the action is accept under the folder's own name.<br>The same code is at `organize_media.py:153-169`. |
| Organize.PlaceFolderReport | organize.py:192-199 | For a folder with media, the report carries the counts and the root they choose. Without prompting, the folder is accepted under its own name. With prompting, only the end of input stops it from being handled. |
| Organize.OrganizeStepDispatch | organize.py:201-211 | Accept and rename move the whole folder under the report's root and final name. Ungroup scatters over both roots. Skip changes nothing. |
| Organize.OrganizeStepUntouched | organize.py:177-203 | An entry that is not handed to a mover leaves the disk as it was. |
| Organize.OrganizeRunReports | organize.py:177-211 | The i-th report is the step for the i-th entry on the disk and input left by the steps before it. |
| Organize.OrganizeRunReportAt | organize.py:177-211 | The report at position i is that of the step the loop takes at entry i. |
| Organize.OrganizeStepAtBefore | organize.py:177-211 | The step at entry i is the step for the i-th name, on the disk and input left by the steps before it. |
| Organize.OrganizeRunStops | organize.py:188-199 | Running out of input, or an unreadable date in a folder, ends the run at that entry. Only the last report can say so. |
| Organize.NonInteractiveAccepts | organize.py:188-199 | Without prompting, every entry is reported unless the run ended on an unreadable date. Every handled folder is accepted under its own name. |
| OrganizeMedia.ScriptExtensionsAgree | organize_media.py:14-15 | The script's extension sets are the shared ones. |
| OrganizeMedia.RunScript | organize_media.py:148-185 | `main` is `organize` run with the module settings. |
| OrganizeMedia.ScriptMovesNothing | organize_media.py:17 | With `DRY_RUN = True`, as shipped, the script moves no file whatever the operator answers. |
| AssignDate.FullShapeParses | assign_date.py:31-36 | A string of shape `YYYY-MM-DD<ws>HH:MM:SS` parses to exactly those fields. |
| AssignDate.MinuteShapeParses | assign_date.py:38-43 | A string of shape `YYYY-MM-DD<ws>HH:MM` parses to those fields with zero seconds. |
| AssignDate.DayShapeParses | assign_date.py:45-50 | A string of shape `YYYY-MM-DD` parses to noon on that day. |
| AssignDate.MonthShapeParses | assign_date.py:52-57 | A string of shape `YYYY-MM` parses to noon on the 15th. |
| AssignDate.YearShapeParses | assign_date.py:59-65 | A string of shape `YYYY` parses to noon on 1 July. |
| AssignDate.ParseFull | assign_date.py:31-36 | A written `YYYY-MM-DD<ws>HH:MM:SS` reads back as that time. |
| AssignDate.ParseMinutes | assign_date.py:38-43 | A written `YYYY-MM-DD<ws>HH:MM` reads back with zero seconds. |
| AssignDate.ParseDay | assign_date.py:45-50 | A written `YYYY-MM-DD` reads back at 12:00:00. |
| AssignDate.ParseMonth | assign_date.py:52-57 | A written `YYYY-MM` reads back as day 15 at 12:00:00. |
| AssignDate.ParseYear | assign_date.py:59-65 | A written `YYYY` reads back as 1 July at 12:00:00. |
| AssignDate.ParseRoundTrip | assign_date.py:29-36 | Every datetime written as `YYYY-MM-DD HH:MM:SS` parses back to itself. |
| AssignDate.ParseRefusesImpossibleDates | assign_date.py:33-65 | Year 0 and 29 February of a common year raise `ValueError`. |
| AssignDate.ParseOnlyShapes | assign_date.py:59-71 | Only the five shapes parse; anything else raises `ValueError`. |
| AssignDate.ParseIgnoresPadding | assign_date.py:29 | Whitespace around the date is ignored. |
| AssignDate.CollectMedia | assign_date.py:96-122 | The collected list is the single source file, or the visible media files of the folder in walk order. |
| AssignDate.AssignOne | assign_date.py:137-168 | The loop body computes one file's step: an error, a skip, or an update. |
| AssignDate.AssignAll | assign_date.py:130-168 | The loop computes the run specification, counters included. |
| AssignDate.Assign | assign_date.py:74-168 | The method's effect and report are those of `assign_date`. |
| AssignDate.AssignRunCounts | assign_date.py:137-168 | Each file adds exactly one to updated, skipped or errors. |
| AssignDate.AssignDryRunChangesNothing | assign_date.py:155-159 | A dry-run loop changes nothing on the disk. |
| AssignDate.AssignOneOnlySetsTarget | assign_date.py:161-165 | A real step changes only its own file's modification time, and only to the target. The file is settled afterwards. |
| AssignDate.AssignRunSettles | assign_date.py:137-168 | After a real loop, every file of the list is settled. |
| AssignDate.SettledRunUpdatesNothing | assign_date.py:148-152 | On settled files, a loop updates nothing and changes nothing. |
| AssignDate.AssignRunKeepsShape | assign_date.py:161-162 | Setting times keeps the directories, the set of files and every walk. |
| AssignDate.AssignTwiceUpdatesNothing | assign_date.py:74-168 | After a real run, a second one with the same arguments updates nothing, counts the same files and changes nothing. |
| AssignDate.AssignRejectsNonMediaFile | assign_date.py:99-110 | A single source file that is not a photo or video is refused before any update. |
| AssignDate.AssignDateDryRun | assign_date.py:155-159 | A dry run of `assign_date` leaves the disk exactly as it was. |
| AssignDate.AssignDateCounts | assign_date.py:97-137 | A summary counts every collected file, of which there is at least one. Only media files are collected: the single source file, or visible files in folder mode. |
| FixDates.FirstEightDigits | fix_dates.py:44-45 | The search finds the leftmost run of eight digits, or reports that there is none. |
| FixDates.CameraSearchIsFirstEightDigits | fix_dates.py:44-45 | The optional `IMG`/`VID`/`DSC` prefix never moves the match: pattern 1 matches at the leftmost run of eight digits. |
| FixDates.SearchDashed | fix_dates.py:58-59 | The search finds the leftmost `YYYY-MM-DD`, or reports that there is none. |
| FixDates.ExtractUsesFirstEightDigits | fix_dates.py:44-55 | If the leftmost eight digits spell a valid date, that date is the result, with the `_HHMMSS` time if one follows and midnight otherwise. |
| FixDates.ExtractFallsBackToDashed | fix_dates.py:52-67 | Without a valid pattern-1 date, the result is the leftmost `YYYY-MM-DD` at midnight, or none. |
| FixDates.NoDigitsNoDate | fix_dates.py:67 | A name without digits yields no date. |
| FixDates.CorrectDatePriority | fix_dates.py:83-93 | For photos, EXIF beats the file name. EXIF is never consulted for other files. No date means the name had none. |
| FixDates.CorrectDateIgnoresMtime | fix_dates.py:70-93 | The correct date does not depend on the current modification time. |
| FixDates.FixRun | fix_dates.py:114-159 | The loop either finishes or is aborted by an unreadable modification time. |
| FixDates.FixOne | fix_dates.py:115-159 | The loop body computes one file's step. |
| FixDates.FixAll | fix_dates.py:114-159 | The loop computes the run specification, stopping at the first unreadable time. |
| FixDates.FixDates | fix_dates.py:96-159 | The method's effect and report are those of `fix_dates`. |
| FixDates.FixOneResult | fix_dates.py:116-159 | For a visible media file whose time can be read:<br>• no date means skipped;<br>• an already-correct date is left alone;<br>• otherwise a dry run reports it fixed, and a real run fixes it or, if `utime` fails, reports an error. |
| FixDates.FixOnePassesOver | fix_dates.py:116-124 | Hidden and non-media files count nothing and change nothing. |
| FixDates.FixOneDry | fix_dates.py:142-146 | A dry-run step changes nothing. |
| FixDates.FixDryRunChangesNothing | fix_dates.py:142-146 | A dry-run loop changes nothing on the disk. |
| FixDates.FixRunCounts | fix_dates.py:110-159 | The counters never exceed the number of files visited. |
| FixDates.FixOneOnlySetsCorrect | fix_dates.py:147-159 | A real step changes only its own file's time, and only to that file's correct date. |
| FixDates.FixOneSettles | fix_dates.py:132-159 | A real step that can read the time leaves the file settled. |
| FixDates.FixRunSettles | fix_dates.py:114-159 | After a finished real run, every file of the walk is settled. |
| FixDates.SettledFixRunFixesNothing | fix_dates.py:132-139 | On settled files, a real run finishes, fixes nothing and changes nothing. |
| FixDates.FixRunKeepsShape | fix_dates.py:151 | A real run keeps the directories, the set of files and every walk. |
| FixDates.FixTwiceFixesNothing | fix_dates.py:96-159 | After a finished real run, a second run fixes nothing and changes nothing. |
| HealthCheck.SearchBoundary | health_check.py:86-88 | The loop finds the first boundary at or above the year, or there is none. |
| HealthCheck.GetSizeThreshold | health_check.py:73-90 | The configuration returned comes from the table chosen by the extension. |
| HealthCheck.SizeThresholdIsEra | health_check.py:80-90 | The threshold is that of the smallest key at or above the year (1990 when undated), from the photo table iff the extension is a photo one. |
| HealthCheck.FirstBoundaryIsLeast | health_check.py:86-88 | On sorted keys, the first boundary at or above the year is the least such key. |
| HealthCheck.UndatedIsLegacy | health_check.py:80-84 | Without a date, the first era of the chosen table applies. |
| HealthCheck.CheckFileHealthVerdict | health_check.py:93-144 | A file is healthy iff all four checks pass: its size can be read, it is non-empty, a media file meets the era's size, and a photo decodes at the era's resolution. The first failing check names the issue. |
| HealthCheck.ScanFiles | health_check.py:197-220 | The scan loop computes the scan specification. |
| HealthCheck.ScanTotals | health_check.py:201-220 | Exactly the visible media files are scanned, and `total == healthy + len(issues)`. |
| HealthCheck.ScanIssuesFromWalk | health_check.py:201-218 | Every issue is the failing verdict of a visible media file of the walk. |
| HealthCheck.GroupKey | health_check.py:237 | The key is a prefix of the issue text and holds no ":". |
| HealthCheck.GroupKeysExact | health_check.py:235-240 | The group keys are distinct and are exactly the keys that occur. |
| HealthCheck.GroupIssues | health_check.py:235-240 | The dictionary's keys, in insertion order, are the keys by first appearance. Each group is exactly that key's issues, in order. |
| HealthCheck.GroupStep | health_check.py:236-240 | One more issue appends its key at the key's first appearance and joins that key's group. |
| HealthCheck.GroupsPartitionIssues | health_check.py:235-240 | The group sizes add up to the number of issues. |
| HealthCheck.IssueInItsGroup | health_check.py:236-240 | Every issue is in the group of its own key. |
| HealthCheck.AccessIssuesShareGroup | health_check.py:107 | Every unreadable file falls in the group "Cannot access file". |
| HealthCheck.CorruptIssuesShareGroup | health_check.py:142 | Every undecodable photo falls in the group "Corrupted image". |
| HealthCheck.ZeroByteIsItsOwnGroup | health_check.py:111 | The zero-byte message is its own group. |
| HealthCheck.SmallIssueKey | health_check.py:120-123 | A too-small file's group is named by its own size and era label. |
| HealthCheck.PromptDelete | health_check.py:155-169 | An answer consumes one or two lines, never more than exist. |
| HealthCheck.ReadAnswer | health_check.py:161-169 | Once the first line is normalised, only "v" reads a second line. |
| HealthCheck.PromptDeleteReads | health_check.py:161-169 | Two lines are read iff the first answer is "v". The file is deleted iff the last line read is "d". The prompt fails only when input ends. |
| HealthCheck.ViewTwiceKeeps | health_check.py:163-169 | Viewing is offered once: a second "v" keeps the file. |
| HealthCheck.DeleteStep | health_check.py:270-285 | One issue consumes no more input than exists. |
| HealthCheck.DeleteRun | health_check.py:270-285 | The deletion loop either completes or is interrupted. |
| HealthCheck.DeleteOne | health_check.py:271-285 | The loop body computes one issue's step. |
| HealthCheck.DeleteIssues | health_check.py:267-285 | The loop computes the deletion specification. |
| HealthCheck.RunHealthCheck | health_check.py:172-285 | The method's effect and report are those of `health_check`. |
| HealthCheck.DeleteRunAccounts | health_check.py:270-285 | A completed pass ends every issue as deleted, skipped or a failed removal. No pass counts more. |
| HealthCheck.NonInteractiveDeletesAll | health_check.py:271-282 | Without prompting, the pass completes, skips nothing and removes every issue file it can. Any issue file that survives is protected. |
| HealthCheck.DeleteRunNeverRestores | health_check.py:276-282 | The pass only removes files. |
| HealthCheck.DeleteStepEffect | health_check.py:276-285 | One step removes that issue's file or nothing. |
| HealthCheck.DeleteRunKeepsOthers | health_check.py:270-285 | Files that are not issues, and all directories, are left as they were. |
| HealthCheck.HealthDryRunDeletesNothing | health_check.py:258-261 | A dry run deletes nothing and requests no deletion. |
| HealthCheck.HealthSummaryAddsUp | health_check.py:222-255 | In the summary, total equals healthy plus issues, and the groups hold every issue. |
| Dedupe.HashOrderExact | dedupe.py:45-50 | The hash order lists each hash of an eligible file once, and no other. |
| Dedupe.HashGroupsStep | dedupe.py:45-47 | One more eligible file appends its path to its hash's list, creating the list at the hash's first appearance. |
| Dedupe.KeepRepeated | dedupe.py:50 | Only lists of two or more paths are kept, unchanged. |
| Dedupe.KeepRepeatedExact | dedupe.py:50 | A hash has a set iff its list holds more than one path. |
| Dedupe.FindDuplicates | dedupe.py:22-52 | The loop computes the duplicate sets of the walk. |
| Dedupe.DuplicatesExact | dedupe.py:36-50 | Every set holds two or more visible, regular, hashable files with its hash, and every such hash has a set. No path is in two sets. |
| Dedupe.SpaceSavings | dedupe.py:55-76 | The loop computes the duplicate count and the bytes saved. |
| Dedupe.SavingsCountsTargets | dedupe.py:62-67 | `duplicate_count` equals the number of deletion targets. |
| Dedupe.SavingsNeedReadableSets | dedupe.py:69-74 | Bytes are counted only for sets whose first file can be sized. |
| Dedupe.InsertByLength | dedupe.py:122 | The step of the stable sort keeps every path. |
| Dedupe.SortByLength | dedupe.py:139 | `sorted(paths, key=len)` is a permutation of the paths. |
| Dedupe.SortSorted | dedupe.py:139 | The sort orders paths by length. |
| Dedupe.FirstShortest | dedupe.py:139-141 | Gives the first path, in walk order, of the smallest length. |
| Dedupe.SortHead | dedupe.py:139 | The sort's first path is the first shortest in walk order. |
| Dedupe.KeepShortest | dedupe.py:139-141 | The kept path is a shortest one, and the first such in walk order. |
| Dedupe.KeptCopiesStay | dedupe.py:131-147 | When no path is walked twice, the kept path of every set is one of its paths and never a deletion target of any set. After a real run its file is exactly as it was. |
| Dedupe.KeepAndTargets | dedupe.py:139-141 | Every other path of the set is a deletion target, as often as it occurs. |
| Dedupe.TargetsCount | dedupe.py:141 | A set of n paths has n - 1 targets. |
| Dedupe.RemoveFile | dedupe.py:142-147 | The method's effect and count are those of one guarded `os.remove`. |
| Dedupe.RemovePaths | dedupe.py:141-147 | The inner loop counts the successful removals. |
| Dedupe.DeleteDuplicates | dedupe.py:136-147 | The deletion loop removes every target in turn. |
| Dedupe.RemoveOneEffect | dedupe.py:142-147 | A removal succeeds iff an unprotected file is there. Then that file alone is gone, and nothing else changes. |
| Dedupe.RemoveRunCounts | dedupe.py:136-147 | `deleted_count` never exceeds the number of targets, and no folder changes. |
| Dedupe.RemoveRunKeeps | dedupe.py:141-147 | A path that is not a target is untouched. |
| Dedupe.RemoveRunRemoves | dedupe.py:141-147 | Every target that could be removed is gone. |
| Dedupe.NeverRestored | dedupe.py:141-147 | Removal never creates a file. |
| Dedupe.FirstUnreadable | dedupe.py:115-116 | The listing stops exactly when some set's first file cannot be sized. |
| Dedupe.RunDedupe | dedupe.py:88-152 | The method's effect and report are those of `dedupe`. |
| Dedupe.DedupeDryRunDeletesNothing | dedupe.py:131 | A dry run deletes nothing. |
| Dedupe.DedupeDeletesOnlyTargets | dedupe.py:131-147 | A real run deletes at most the counted duplicates, and leaves every non-target as it was (that kept copies are never targets is `KeptCopiesStay`). |
| Flatten.FlattenFile | flatten.py:27-60 | The loop body computes one file's step, including the update to `seen`. |
| Flatten.FlattenAll | flatten.py:26-60 | The loop, with `seen` starting empty, computes the run specification. |
| Flatten.FlattenFolder | flatten.py:8-62 | The method's effect and report are those of `flatten_folder`. |
| Flatten.StepDry | flatten.py:43-60 | A dry step changes nothing on disk, and a name once recorded keeps its first record. The same code is at `folder_flatten.py:37-48`. |
| Flatten.DryRunMovesNothing | flatten.py:26-60 | A dry loop changes nothing on disk, and no earlier record of `seen` changes. |
| Flatten.FlattenDryRun | flatten.py:21 | A dry run leaves every file, and only creates the target folder. |
| Flatten.IdleStep | flatten.py:28-37 | A filtered-out file, or one already in the target, changes nothing. |
| Flatten.RealStep | flatten.py:40-60 | A real step does one of three things:<br>• a new name is moved to `target/name` and recorded;<br>• a strictly bigger duplicate replaces the kept copy and updates `seen`;<br>• an equal or smaller one is removed.<br>The same code is at `folder_flatten.py:34-55`. |
| Flatten.StepFrame | flatten.py:40-60 | A step touches only its file, `target/name` and the kept copy it replaces. |
| Flatten.StepSeenRecords | flatten.py:50-60 | A step records only the moved file's place in the target. |
| Flatten.RunFrame | flatten.py:26-60 | The loop leaves alone every path that no step touches. |
| Flatten.FilteredFileStays | flatten.py:28-30 | A file with a filtered-out extension stays, with its record. |
| Flatten.TargetFileStays | flatten.py:36-37 | A file already in the target is skipped and stays unless a moved file has its name. The same code is at `folder_flatten.py:30-31`. |
| Flatten.MoveIntoTarget | flatten.py:59 | The move puts the file's record at `target/name`, disturbs no other target entry and leaves nothing behind. |
| Flatten.KeptAfterMove | flatten.py:56-60 | A first occurrence's new record is true on the disk. |
| Flatten.KeptAfterReplace | flatten.py:47-50 | After a replacement, the updated record is true on the disk. |
| Flatten.ReplaceFinds | flatten.py:48-49 | After a replacement, `target/name` holds the bigger file and the other target entries are unchanged. |
| Flatten.KeptAfterRemove | flatten.py:53-54 | Removing a smaller duplicate keeps every record true. |
| Flatten.StepKeepsKept | flatten.py:40-60 | A real step keeps every record of `seen` true on the disk. |
| Flatten.StepHandles | flatten.py:40-60 | A real step removes its file from its folder. The record for its name is at least its size, and no record shrinks. |
| Flatten.RunKeepsKept | flatten.py:26-60 | A completed real loop keeps every record true and shrinks none. |
| Flatten.RunKeepsBigger | flatten.py:26-60 | In a completed real loop, every handled file has left its folder, and the record for its name is at least its size. |
| Flatten.FlattenKeepsBigger | flatten.py:8-62 | After a completed real run, every handled file has left its folder, and `target/name` holds a file at least as big. |
| FolderFlatten.EveryFileAdmitted | folder_flatten.py:7 | With `EXTENSIONS = None`, every file passes the filter. |
| FolderFlatten.TargetFolder | folder_flatten.py:72-77 | The target is the given one if it is non-empty; an absent or empty argument gives `<source>/flattened`. |
| FolderFlatten.FlattenFolder | folder_flatten.py:10-57 | The script's `flatten_folder` is the shared one without a filter. |
| FolderFlatten.Run | folder_flatten.py:60-79 | `main` flattens into the chosen target. |
| FileSystem.Disk.MakeDirs | organize.py:146 | `makedirs` makes the path and every ancestor a directory and changes no file. |
| FileSystem.Disk.Remove | dedupe.py:143 | After `os.remove`, nothing is at the path and the directories are unchanged. |
| FileSystem.Disk.RemoveDir | organize.py:136 | `os.rmdir` changes no file and removes the directory. |
| FileSystem.Disk.SetMtime | assign_date.py:162 | `os.utime` changes only the modification time of that file. |
| FileSystem.EntriesUnder | organize.py:55 | `os.walk(root)` yields exactly the files strictly under `root`, in order. |
| FileSystem.MoveToFreshPath | organize.py:157 | Renaming onto a free path whose parents exist keeps the disk valid and every file record. |
| FileSystem.MoveArrives | organize.py:131 | After `shutil.move`, every moved file is found at its new path. |
| FileSystem.FindAfterMove | flatten.py:59 | After a move, the destination holds the source's record, the source is empty, and other paths are unchanged. |
| FileSystem.FindAfterRemove | dedupe.py:143 | After a removal, only the removed path changes. |
| FileSystem.FindAfterSetMtime | fix_dates.py:151 | After `utime`, only that file's time changes. |
| FileSystem.FileSystem.Move | organize.py:157 | The class's move updates the disk as `Disk.Move` does. |

## Left out

- **EXIF, hashing and image probes.** EXIF parsing, MD5 hashing and the imaging library's open, verify and size are not modelled. Their results are fields of the file record, read and never computed.
- **Walk order and timing.**
  - The order of the file list stands for `os.walk` order.
  - Each walk is taken once, before the loop that uses it; the lazy generator's view of folders changed during the walk is not modelled.
  - Races between an existence check and a move are not modelled.
- **`shutil.move` limits.**
  - It is modelled as a rename that replaces whatever was at the destination.
  - Moving into an existing directory, which nests the source inside it, is not modelled.
  - Copy-then-delete across devices is not modelled.
- **Uncaught OS errors.**
  - Errors raised by `os.makedirs` and `shutil.move` are not modelled; those calls always take effect.
  - `FileSystem.Disk.Move` leaves the disk unchanged when the destination is the source or lies under it. There `shutil.move` raises and ends the run. An example is a destination root inside the folder being moved.
  - Some errors the source does not catch are modelled as ending the run:
    - `os.path.getsize` and `os.remove` in `flatten` (`flatten.py:33`, `48`, `54`) give the `Crashed` report;
    - `os.path.getmtime` in `fix_dates` (`fix_dates.py:127`) stops that run;
    - `os.path.getmtime` in `organize` (`organize.py:46`, `67`, `114`) gives the `ClassifyFailed` report, or stops the scatter loop with `MtimeFailed`. `organize_media.py:46`, `65`, `104` is the same code.
  - The source catches the failure for `os.path.getmtime` in `assign_date` (`assign_date.py:141-143`), for `os.utime` in `assign_date` and `fix_dates`, and for `os.remove` in `health_check` and `dedupe`, and for `os.listdir`/`os.rmdir` of the scattered folder in `organize` (`organize.py:134-138`). There the model gives a failed outcome, or leaves the folder in place, and the run goes on. The `locked` flag stands for a file that `utime` or `remove` cannot change. The disk's `pinned` set stands for a directory that `rmdir` cannot remove.
- **The one-second tolerance.** The tolerance of `assign_date` and `fix_dates` (`total_seconds() < 1`) is modelled as equality of the datetimes; floating-point timestamps are not modelled.
- **Formatting.** `format_size`, `format_threshold` and `print_thresholds` are not modelled, because they use float division and string formatting. With `display_thresholds` the health check only reports that it printed.
- **Console output.** All console output is left out: messages, the tree printed by `print_tree`, and the file preview (`open`).
- **Console input.** Input is a list of lines; `input()` is modelled only for the two prompts.
- **Character handling.** Only ASCII digits, ASCII whitespace and ASCII upper case are modelled. Python's `isdigit`, `\d`, `\s`, `strip` and `lower` also accept other Unicode characters.
- **`cli.py`.** It is an argument-parsing wrapper with no logic of its own, and is not part of this model.
- Organize.MoveEntireFolder: the new folder name is always a single path component. A rename answer containing "/" nests the folder deeper in `os.path.join`, and an absolute one discards the bucket directory; neither is modelled. The names "." and ".." are modelled: they resolve to existing directories, so the folder is not moved. This also applies to `MoveEntireFolderEffect` and `PromptRenameName`.
- Organize.DestDirInjective: holds only for months below 100. The zero-padded `:02d` format is not injective beyond that.
- Flatten.FlattenKeepsBigger: assumes the walk is that of a real tree: each path once, no file inside another, target outside the moved files. This is also the case for `RunKeepsBigger` and `RunKeepsKept`.
- Flatten.FilteredFileStays: assumes the file does not lie inside another file of the walk, nor inside a folder named like one that is moved into the target.
- Flatten.TargetFileStays: assumes no moved file shares the name and no file of the walk contains the target.
- Dedupe.DuplicatesExact: states that no path is in two sets only for a walk that lists each path once.
- HealthCheck.SmallIssueKey: assumes the era label holds no ":", which is true of every label in both tables.
- FolderCounts.TreeAggregate: is stated for the bottom-up walk of a tree whose sibling folders have distinct names. `GetFolderStats` itself takes any sequence of walk steps.

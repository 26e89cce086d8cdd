/**
 * Repairing modification times: a photo's EXIF capture date wins, otherwise a
 * date spelled in the file name; files whose time already agrees are left
 * alone, and files without any recoverable date are counted as skipped.
 */
module FixDates {
  import opened Wrappers
  import opened Text
  import opened Dates
  import opened Media
  import opened FileSystem

  // ------------------------------------------------------------ dates in file names

  /** `n` ASCII digits start at position `i` of `s`. */
  predicate DigitsAt(s: string, i: nat, n: nat) {
    i + n <= |s| && forall k | i <= k < i + n :: IsDigit(s[k])
  }

  /** The optional camera prefix `IMG`, `VID` or `DSC` starts at `i`. */
  predicate PrefixAt(s: string, i: nat) {
    i + 3 <= |s| && s[i..i + 3] in {"IMG", "VID", "DSC"}
  }

  /**
   * Where the digits of `(?:IMG|VID|DSC)?_?(\d{4})(\d{2})(\d{2})` begin when the
   * match is tried at `start`: the engine tries the prefix before no prefix and
   * `_` before no `_`, and takes the first alternative that leads to a match.
   */
  function DigitsAfterPrefix(s: string, start: nat): Option<nat> {
    if PrefixAt(s, start) && start + 3 < |s| && s[start + 3] == '_' && DigitsAt(s, start + 4, 8) then Some(start + 4)
    else if PrefixAt(s, start) && DigitsAt(s, start + 3, 8) then Some(start + 3)
    else if start < |s| && s[start] == '_' && DigitsAt(s, start + 1, 8) then Some(start + 1)
    else if DigitsAt(s, start, 8) then Some(start)
    else None
  }

  /** `re.search` for the first pattern: the first start position at which it matches. */
  function SearchCamera(s: string, start: nat): Option<nat>
    decreases |s| - start
  {
    if start > |s| then None
    else match DigitsAfterPrefix(s, start)
      case Some(j) => Some(j)
      case None => SearchCamera(s, start + 1)
  }

  /** The leftmost run of eight digits at or after `start`. */
  function FirstEightDigits(s: string, start: nat): (r: Option<nat>)
    ensures r.Some? ==> start <= r.value && DigitsAt(s, r.value, 8)
    ensures r.Some? ==> forall k | start <= k < r.value :: !DigitsAt(s, k, 8)
    ensures r.None? ==> forall k | start <= k :: !DigitsAt(s, k, 8)
    decreases |s| - start
  {
    if start + 8 > |s| then None
    else if DigitsAt(s, start, 8) then Some(start)
    else FirstEightDigits(s, start + 1)
  }

  /**
   * The optional prefix never moves the date: the first pattern's date digits
   * are exactly the leftmost run of eight digits in the name.
   */
  lemma {:induction false} CameraSearchIsFirstEightDigits(s: string, start: nat)
    ensures SearchCamera(s, start) == FirstEightDigits(s, start)
    decreases |s| - start
  {
    if start <= |s| {
      match DigitsAfterPrefix(s, start)
      case Some(j) =>
        assert !IsDigit('I') && !IsDigit('V') && !IsDigit('D') && !IsDigit('_');
        if j > start {
          forall k | start <= k < j ensures !DigitsAt(s, k, 8) {
            if PrefixAt(s, start) {
              assert s[start + 2] == s[start..start + 3][2];
            }
          }
          FirstEightDigitsSkips(s, start, j);
        }
      case None =>
        CameraSearchIsFirstEightDigits(s, start + 1);
    }
  }

  /** When no run of eight digits starts in `[start, j)` and one starts at `j`, it is the first. */
  lemma {:induction false} FirstEightDigitsSkips(s: string, start: nat, j: nat)
    requires start <= j && DigitsAt(s, j, 8)
    requires forall k | start <= k < j :: !DigitsAt(s, k, 8)
    ensures FirstEightDigits(s, start) == Some(j)
    decreases j - start
  {
    if start < j {
      FirstEightDigitsSkips(s, start + 1, j);
    }
  }

  /** `_HHMMSS` follows the date digits at `j`. */
  predicate TimeAfter(s: string, j: nat) {
    j + 8 < |s| && s[j + 8] == '_' && DigitsAt(s, j + 9, 6)
  }

  /** `(\d{4})-(\d{2})-(\d{2})` starts at `i`. */
  predicate DashedAt(s: string, i: nat) {
    DigitsAt(s, i, 4) && i + 4 < |s| && s[i + 4] == '-' && DigitsAt(s, i + 5, 2) && i + 7 < |s| && s[i + 7] == '-' && DigitsAt(s, i + 8, 2)
  }

  /** `re.search` for the second pattern. */
  function SearchDashed(s: string, start: nat): (r: Option<nat>)
    ensures r.Some? ==> start <= r.value && DashedAt(s, r.value)
    ensures r.Some? ==> forall k | start <= k < r.value :: !DashedAt(s, k)
    ensures r.None? ==> forall k | start <= k :: !DashedAt(s, k)
    decreases |s| - start
  {
    if start + 10 > |s| then None
    else if DashedAt(s, start) then Some(start)
    else SearchDashed(s, start + 1)
  }

  /** The number spelled by the `n` digits at `i`. */
  function NumberAt(s: string, i: nat, n: nat): nat
    requires DigitsAt(s, i, n)
  {
    Value(s[i..i + n])
  }

  /** The first pattern's date, time included when `_HHMMSS` follows; `None` when `datetime` refuses it. */
  function CameraDate(s: string, j: nat): Option<DateTime>
    requires DigitsAt(s, j, 8)
  {
    if TimeAfter(s, j) then
      MakeDate(NumberAt(s, j, 4), NumberAt(s, j + 4, 2), NumberAt(s, j + 6, 2),
               NumberAt(s, j + 9, 2), NumberAt(s, j + 11, 2), NumberAt(s, j + 13, 2))
    else MakeDate(NumberAt(s, j, 4), NumberAt(s, j + 4, 2), NumberAt(s, j + 6, 2), 0, 0, 0)
  }

  /**
   * `extract_date_from_filename`: the first pattern; if it is absent or spells an
   * impossible date, the second pattern at midnight; otherwise `None`. Only the
   * first occurrence of each pattern is considered.
   */
  function ExtractDateFromFilename(name: string): Option<DateTime> {
    var first := match SearchCamera(name, 0)
      case None => None
      case Some(j) => if DigitsAt(name, j, 8) then CameraDate(name, j) else None;
    if first.Some? then first
    else match SearchDashed(name, 0)
      case None => None
      case Some(j) => MakeDate(NumberAt(name, j, 4), NumberAt(name, j + 5, 2), NumberAt(name, j + 8, 2), 0, 0, 0)
  }

  /** The date found in a name is the one spelled by its leftmost run of eight digits, when that is a real date. */
  lemma ExtractUsesFirstEightDigits(name: string)
    requires FirstEightDigits(name, 0).Some?
    requires CameraDate(name, FirstEightDigits(name, 0).value).Some?
    ensures ExtractDateFromFilename(name) == CameraDate(name, FirstEightDigits(name, 0).value)
  {
    CameraSearchIsFirstEightDigits(name, 0);
  }

  /**
   * Without a usable run of eight digits, the date is the leftmost `YYYY-MM-DD`
   * at midnight, or nothing.
   */
  lemma ExtractFallsBackToDashed(name: string)
    requires FirstEightDigits(name, 0).None? || CameraDate(name, FirstEightDigits(name, 0).value).None?
    ensures ExtractDateFromFilename(name) ==
      match SearchDashed(name, 0)
      case None => None
      case Some(j) => MakeDate(NumberAt(name, j, 4), NumberAt(name, j + 5, 2), NumberAt(name, j + 8, 2), 0, 0, 0)
  {
    CameraSearchIsFirstEightDigits(name, 0);
  }

  /** A name with no digit at all carries no date. */
  lemma NoDigitsNoDate(name: string)
    requires forall k | 0 <= k < |name| :: !IsDigit(name[k])
    ensures ExtractDateFromFilename(name) == None
  {
    CameraSearchIsFirstEightDigits(name, 0);
  }

  // ------------------------------------------------------------ choosing the date

  /**
   * `get_correct_date`: for a photo, the EXIF capture date when there is one;
   * otherwise, and for every other file, the date in the file name.
   */
  function GetCorrectDate(name: string, info: FileInfo): Option<DateTime> {
    if KindOf(name) == Photo && info.exif.Some? then info.exif else ExtractDateFromFilename(name)
  }

  /** The EXIF date wins over the name for photos and is never consulted for other files. */
  lemma CorrectDatePriority(name: string, info: FileInfo)
    ensures KindOf(name) == Photo && info.exif.Some? ==> GetCorrectDate(name, info) == info.exif
    ensures KindOf(name) != Photo || info.exif.None? ==> GetCorrectDate(name, info) == ExtractDateFromFilename(name)
    ensures GetCorrectDate(name, info).None? ==> ExtractDateFromFilename(name).None?
  {
  }

  /** The correct date does not depend on the modification time. */
  lemma CorrectDateIgnoresMtime(name: string, info: FileInfo, t: DateTime)
    ensures GetCorrectDate(name, info.(mtime := t)) == GetCorrectDate(name, info)
  {
  }

  // ------------------------------------------------------------ fixing

  datatype Totals = Totals(fixed: nat, skipped: nat, errors: nat)

  /** What happened to one file of the walk. */
  datatype FileResult = NotCandidate | NoDate | AlreadyRight | Fixed | FixFailed | StatFailed

  datatype StepResult = StepResult(disk: Disk, result: FileResult)

  /**
   * One file of the walk: hidden and non-media files are passed over; reading
   * the modification time of a media file may raise, which is not caught and
   * ends the run; a file with no recoverable date is skipped; a file already at
   * its date is left alone; otherwise its time is set, or an error is counted
   * when it cannot be changed.
   */
  function FixOneSpec(d: Disk, p: Path, dryRun: bool): StepResult {
    var name := Name(p);
    if IsHidden(name) || !IsMedia(name) then StepResult(d, NotCandidate)
    else match d.Find(p)
      case None => StepResult(d, StatFailed)
      case Some(info) =>
        if info.statError.Some? then StepResult(d, StatFailed)
        else match GetCorrectDate(name, info)
          case None => StepResult(d, NoDate)
          case Some(correct) =>
            if correct == info.mtime then StepResult(d, AlreadyRight)
            else if dryRun then StepResult(d, Fixed)
            else if info.locked then StepResult(d, FixFailed)
            else StepResult(d.SetMtime(p, correct), Fixed)
  }

  function Tally(t: Totals, r: FileResult): Totals {
    match r
    case Fixed => t.(fixed := t.fixed + 1)
    case NoDate => t.(skipped := t.skipped + 1)
    case FixFailed => t.(errors := t.errors + 1)
    case _ => t
  }

  /** How a run ended: with the summary, or with an uncaught error and the counts so far. */
  datatype Report = NotAccessible | Finished(totals: Totals) | Aborted(totals: Totals, at: Path)

  datatype RunResult = RunResult(disk: Disk, report: Report)

  function FixRun(d: Disk, paths: seq<Path>, dryRun: bool, acc: Totals): (r: RunResult)
    ensures r.report.Finished? || r.report.Aborted?
    decreases |paths|
  {
    if paths == [] then RunResult(d, Finished(acc))
    else
      var s := FixOneSpec(d, paths[0], dryRun);
      if s.result == StatFailed then RunResult(d, Aborted(acc, paths[0]))
      else FixRun(s.disk, paths[1..], dryRun, Tally(acc, s.result))
  }

  /** `fix_dates(root, dry_run)`. */
  function FixDatesSpec(d: Disk, root: Path, dryRun: bool): RunResult {
    if !d.Exists(root) then RunResult(d, NotAccessible)
    else FixRun(d, Paths(d.Walk(root)), dryRun, Totals(0, 0, 0))
  }

  method FixOne(fs: FileSystem, p: Path, dryRun: bool) returns (result: FileResult)
    modifies fs
    ensures StepResult(fs.Snapshot(), result) == FixOneSpec(old(fs.Snapshot()), p, dryRun)
  {
    var name := Name(p);
    if IsHidden(name) || !IsMedia(name) {
      return NotCandidate;
    }
    var found := fs.Snapshot().Find(p);
    if found.None? || found.value.statError.Some? {
      return StatFailed;
    }
    var info := found.value;
    var correct := GetCorrectDate(name, info);
    if correct.None? {
      return NoDate;
    }
    if correct.value == info.mtime {
      return AlreadyRight;
    }
    if dryRun {
      return Fixed;
    }
    if info.locked {
      return FixFailed;
    }
    fs.SetMtime(p, correct.value);
    return Fixed;
  }

  /** The run over `paths` starts with the step on its first path. */
  lemma FixRunFirst(d: Disk, paths: seq<Path>, dryRun: bool, acc: Totals, s: StepResult)
    requires paths != [] && s == FixOneSpec(d, paths[0], dryRun)
    ensures s.result == StatFailed ==> s.disk == d && FixRun(d, paths, dryRun, acc) == RunResult(d, Aborted(acc, paths[0]))
    ensures s.result != StatFailed ==> FixRun(d, paths, dryRun, acc) == FixRun(s.disk, paths[1..], dryRun, Tally(acc, s.result))
  {
    var p := paths[0];
    var name := Name(p);
    if IsHidden(name) || !IsMedia(name) {
      assert s.result == NotCandidate;
    } else if d.Find(p).None? || d.Find(p).value.statError.Some? {
      assert s == StepResult(d, StatFailed);
    } else {
      var info := d.Find(p).value;
      if GetCorrectDate(name, info).None? {
        assert s.result == NoDate;
      } else {
        assert s.result != StatFailed;
      }
    }
  }

  /** One turn of the loop, stated as the first step of the run over the remaining paths. */
  method FixNext(fs: FileSystem, paths: seq<Path>, dryRun: bool, totals: Totals) returns (result: FileResult)
    requires paths != []
    modifies fs
    ensures result == StatFailed ==> FixRun(old(fs.Snapshot()), paths, dryRun, totals)
                                     == RunResult(fs.Snapshot(), Aborted(totals, paths[0]))
    ensures result != StatFailed ==> FixRun(old(fs.Snapshot()), paths, dryRun, totals)
                                     == FixRun(fs.Snapshot(), paths[1..], dryRun, Tally(totals, result))
  {
    ghost var d := fs.Snapshot();
    result := FixOne(fs, paths[0], dryRun);
    FixRunFirst(d, paths, dryRun, totals, StepResult(fs.Snapshot(), result));
  }

  /** The loop over the walk, stopping at the first file whose time cannot be read. */
  method FixAll(fs: FileSystem, paths: seq<Path>, dryRun: bool) returns (report: Report)
    modifies fs
    ensures RunResult(fs.Snapshot(), report) == FixRun(old(fs.Snapshot()), paths, dryRun, Totals(0, 0, 0))
  {
    ghost var d0 := fs.Snapshot();
    var totals := Totals(0, 0, 0);
    var i := 0;
    while i < |paths|
      invariant 0 <= i <= |paths|
      invariant FixRun(d0, paths, dryRun, Totals(0, 0, 0)) == FixRun(fs.Snapshot(), paths[i..], dryRun, totals)
    {
      assert paths[i..][0] == paths[i] && paths[i..][1..] == paths[i + 1..];
      var result := FixNext(fs, paths[i..], dryRun, totals);
      if result == StatFailed {
        return Aborted(totals, paths[i]);
      }
      totals := Tally(totals, result);
      i := i + 1;
    }
    assert paths[i..] == [];
    return Finished(totals);
  }

  method FixDates(fs: FileSystem, root: Path, dryRun: bool) returns (report: Report)
    modifies fs
    ensures RunResult(fs.Snapshot(), report) == FixDatesSpec(old(fs.Snapshot()), root, dryRun)
  {
    if !fs.Snapshot().Exists(root) {
      return NotAccessible;
    }
    report := FixAll(fs, Paths(fs.Snapshot().Walk(root)), dryRun);
  }

  // ------------------------------------------------------------ properties

  /**
   * The outcome for one visible media file whose time can be read: no
   * recoverable date is a skip; a file already at its date is left alone;
   * otherwise a dry run reports it fixed, and a real run fixes it or, when its
   * time cannot be set, reports an error.
   */
  lemma FixOneResult(d: Disk, p: Path, dryRun: bool)
    requires !IsHidden(Name(p)) && IsMedia(Name(p)) && d.Find(p).Some? && d.Find(p).value.statError.None?
    ensures var info := d.Find(p).value;
      var c := GetCorrectDate(Name(p), info);
      FixOneSpec(d, p, dryRun).result ==
        if c.None? then NoDate
        else if c.value == info.mtime then AlreadyRight
        else if dryRun || !info.locked then Fixed
        else FixFailed
  {
  }

  /** Hidden and non-media files move no counter and leave the disk alone. */
  lemma FixOnePassesOver(d: Disk, p: Path, dryRun: bool, acc: Totals)
    requires IsHidden(Name(p)) || !IsMedia(Name(p))
    ensures FixOneSpec(d, p, dryRun) == StepResult(d, NotCandidate)
    ensures Tally(acc, FixOneSpec(d, p, dryRun).result) == acc
  {
  }

  lemma FixOneDry(d: Disk, p: Path)
    ensures FixOneSpec(d, p, true).disk == d
  {
  }

  /** A dry run changes nothing on the disk. */
  lemma {:induction false} FixDryRunChangesNothing(d: Disk, paths: seq<Path>, acc: Totals)
    ensures FixRun(d, paths, true, acc).disk == d
    decreases |paths|
  {
    if paths != [] {
      var s := FixOneSpec(d, paths[0], true);
      FixOneDry(d, paths[0]);
      if s.result != StatFailed {
        FixDryRunChangesNothing(d, paths[1..], Tally(acc, s.result));
      }
    }
  }

  lemma TallyCounts(t: Totals, r: FileResult)
    ensures Tally(t, r).fixed + Tally(t, r).skipped + Tally(t, r).errors <= t.fixed + t.skipped + t.errors + 1
  {
  }

  /** Each file is counted at most once, so the counts never exceed the files visited. */
  lemma {:induction false} FixRunCounts(d: Disk, paths: seq<Path>, dryRun: bool, acc: Totals)
    ensures var r := FixRun(d, paths, dryRun, acc).report;
      r.totals.fixed + r.totals.skipped + r.totals.errors <= acc.fixed + acc.skipped + acc.errors + |paths|
    decreases |paths|
  {
    if paths != [] {
      var s := FixOneSpec(d, paths[0], dryRun);
      TallyCounts(acc, s.result);
      if s.result != StatFailed {
        FixRunCounts(s.disk, paths[1..], dryRun, Tally(acc, s.result));
      }
    }
  }

  /**
   * A file is settled once a real step passes over it quietly: it is no
   * candidate, or its time can be read and it has no recoverable date, already
   * carries that date, or cannot be changed.
   */
  predicate Settled(d: Disk, p: Path) {
    var name := Name(p);
    IsHidden(name) || !IsMedia(name) ||
    match d.Find(p)
    case None => false
    case Some(info) =>
      info.statError.None? &&
      (info.locked || GetCorrectDate(name, info).None? || GetCorrectDate(name, info) == Some(info.mtime))
  }

  /** The date a real step writes to `p`. */
  function FixedTime(d: Disk, p: Path): Option<DateTime> {
    match d.Find(p)
    case None => None
    case Some(info) => GetCorrectDate(Name(p), info)
  }

  /** A real step changes at most the modification time of its own file, and only to that file's correct date. */
  lemma FixOneOnlySetsCorrect(d: Disk, p: Path)
    ensures var s := FixOneSpec(d, p, false);
      && s.disk.dirs == d.dirs
      && (s.result == Fixed ==> FixedTime(d, p).Some? && s.disk == d.SetMtime(p, FixedTime(d, p).value))
      && (s.result != Fixed ==> s.disk == d)
  {
    var name := Name(p);
    if !IsHidden(name) && IsMedia(name) && d.Find(p).Some? && d.Find(p).value.statError.None? {
      var info := d.Find(p).value;
      if GetCorrectDate(name, info).Some? {
        var c := GetCorrectDate(name, info).value;
        assert FixedTime(d, p) == Some(c);
        if c != info.mtime && !info.locked {
          assert FixOneSpec(d, p, false) == StepResult(d.SetMtime(p, c), Fixed);
        }
      }
    }
  }

  /** A real step that can read the file's time leaves the file settled. */
  lemma FixOneSettles(d: Disk, p: Path)
    ensures var s := FixOneSpec(d, p, false);
      s.result != StatFailed ==> Settled(s.disk, p)
  {
    var name := Name(p);
    if !IsHidden(name) && IsMedia(name) && d.Find(p).Some? && d.Find(p).value.statError.None? {
      var info := d.Find(p).value;
      if GetCorrectDate(name, info).Some? {
        var c := GetCorrectDate(name, info).value;
        if c != info.mtime && !info.locked {
          var d' := d.SetMtime(p, c);
          assert FixOneSpec(d, p, false) == StepResult(d', Fixed);
          FindAfterSetMtime(d.files, p, c, p);
          CorrectDateIgnoresMtime(name, info, c);
          assert d'.Find(p) == Some(info.(mtime := c));
        }
      }
    }
  }

  /** Setting one file's time leaves every other file as it was, and every file a file. */
  lemma SetMtimeElsewhere(d: Disk, p: Path, t: DateTime, q: Path)
    ensures d.SetMtime(p, t).dirs == d.dirs
    ensures q != p ==> d.SetMtime(p, t).Find(q) == d.Find(q)
    ensures d.SetMtime(p, t).IsFile(q) == d.IsFile(q)
    ensures forall root :: Paths(d.SetMtime(p, t).Walk(root)) == Paths(d.Walk(root))
  {
    FindAfterSetMtime(d.files, p, t, q);
    forall root ensures Paths(d.SetMtime(p, t).Walk(root)) == Paths(d.Walk(root)) {
      SetMtimeKeepsWalk(d.files, p, t, root);
    }
  }

  lemma {:induction false} FixRunKeepsSettled(d: Disk, paths: seq<Path>, acc: Totals, q: Path)
    requires Settled(d, q)
    ensures Settled(FixRun(d, paths, false, acc).disk, q)
    decreases |paths|
  {
    if paths != [] {
      var s := FixOneSpec(d, paths[0], false);
      if s.result != StatFailed {
        FixOneOnlySetsCorrect(d, paths[0]);
        FixOneSettles(d, paths[0]);
        if s.result == Fixed && q != paths[0] {
          SetMtimeElsewhere(d, paths[0], FixedTime(d, paths[0]).value, q);
          assert s.disk.Find(q) == d.Find(q);
        }
        assert Settled(s.disk, q);
        FixRunKeepsSettled(s.disk, paths[1..], Tally(acc, s.result), q);
      }
    }
  }

  /** After a real run that finished, every file of the walk is settled. */
  lemma {:induction false} FixRunSettles(d: Disk, paths: seq<Path>, acc: Totals)
    requires FixRun(d, paths, false, acc).report.Finished?
    ensures forall q | q in paths :: Settled(FixRun(d, paths, false, acc).disk, q)
    decreases |paths|
  {
    if paths != [] {
      var s := FixOneSpec(d, paths[0], false);
      FixOneSettles(d, paths[0]);
      FixRunSettles(s.disk, paths[1..], Tally(acc, s.result));
      FixRunKeepsSettled(s.disk, paths[1..], Tally(acc, s.result), paths[0]);
    }
  }

  /** On settled files a real run finishes, fixes nothing and changes nothing. */
  lemma {:induction false} SettledFixRunFixesNothing(d: Disk, paths: seq<Path>, acc: Totals)
    requires forall q | q in paths :: Settled(d, q)
    ensures FixRun(d, paths, false, acc).report.Finished?
    ensures FixRun(d, paths, false, acc).report.totals.fixed == acc.fixed
    ensures FixRun(d, paths, false, acc).disk == d
    decreases |paths|
  {
    if paths != [] {
      assert Settled(d, paths[0]);
      var s := FixOneSpec(d, paths[0], false);
      assert s.disk == d && s.result != Fixed && s.result != StatFailed;
      SettledFixRunFixesNothing(d, paths[1..], Tally(acc, s.result));
    }
  }

  /** A real run keeps the directories, the set of files and every walk. */
  lemma {:induction false} FixRunKeepsShape(d: Disk, paths: seq<Path>, acc: Totals)
    ensures var r := FixRun(d, paths, false, acc).disk;
      && r.dirs == d.dirs
      && (forall q :: r.IsFile(q) == d.IsFile(q))
      && (forall root :: Paths(r.Walk(root)) == Paths(d.Walk(root)))
    decreases |paths|
  {
    if paths != [] {
      var s := FixOneSpec(d, paths[0], false);
      if s.result != StatFailed {
        FixOneOnlySetsCorrect(d, paths[0]);
        if s.result == Fixed {
          forall q ensures s.disk.IsFile(q) == d.IsFile(q) {
            SetMtimeElsewhere(d, paths[0], FixedTime(d, paths[0]).value, q);
          }
          SetMtimeElsewhere(d, paths[0], FixedTime(d, paths[0]).value, paths[0]);
        }
        FixRunKeepsShape(s.disk, paths[1..], Tally(acc, s.result));
      }
    }
  }

  /**
   * Fixing dates is idempotent: once a real run has finished, a second real run
   * over the same root fixes nothing and changes nothing.
   */
  lemma FixTwiceFixesNothing(d: Disk, root: Path)
    requires FixDatesSpec(d, root, false).report.Finished?
    ensures var first := FixDatesSpec(d, root, false);
      var second := FixDatesSpec(first.disk, root, false);
      && second.disk == first.disk
      && second.report.Finished?
      && second.report.totals.fixed == 0
  {
    var paths := Paths(d.Walk(root));
    var first := FixRun(d, paths, false, Totals(0, 0, 0));
    FixRunKeepsShape(d, paths, Totals(0, 0, 0));
    FixRunSettles(d, paths, Totals(0, 0, 0));
    assert Paths(first.disk.Walk(root)) == paths;
    assert first.disk.Exists(root);
    SettledFixRunFixesNothing(first.disk, paths, Totals(0, 0, 0));
  }
}

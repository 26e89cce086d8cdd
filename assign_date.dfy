/**
 * Giving every media file of a folder (or one media file) the same modification
 * time, read from a date typed in one of five shapes, with the missing parts
 * filled in from the middle of the enclosing period.
 */
module AssignDate {
  import opened Wrappers
  import opened Text
  import opened Dates
  import opened Media
  import opened FileSystem

  // ------------------------------------------------------------ the date grammar

  /** `(\d{4})-(\d{2})-(\d{2})` */
  predicate IsDayPart(s: string) {
    |s| == 10 && AllDigits(s[..4]) && s[4] == '-' && AllDigits(s[5..7]) && s[7] == '-' && AllDigits(s[8..])
  }

  /** `(\d{4})-(\d{2})` */
  predicate IsMonthPart(s: string) {
    |s| == 7 && AllDigits(s[..4]) && s[4] == '-' && AllDigits(s[5..])
  }

  /** `(\d{4})` */
  predicate IsYearPart(s: string) {
    |s| == 4 && AllDigits(s)
  }

  /** `(\d{2}):(\d{2})` */
  predicate IsMinutePart(s: string) {
    |s| == 5 && AllDigits(s[..2]) && s[2] == ':' && AllDigits(s[3..])
  }

  /** `(\d{2}):(\d{2}):(\d{2})` */
  predicate IsSecondPart(s: string) {
    |s| == 8 && AllDigits(s[..2]) && s[2] == ':' && AllDigits(s[3..5]) && s[5] == ':' && AllDigits(s[6..])
  }

  /** `\s+` */
  predicate IsGap(s: string) {
    |s| >= 1 && AllSpace(s)
  }

  /** `^...\s+(\d{2}):(\d{2}):(\d{2})$`: a day, a gap, then a time with seconds. */
  predicate IsFullShape(s: string) {
    |s| >= 19 && IsDayPart(s[..10]) && IsGap(s[10..|s| - 8]) && IsSecondPart(s[|s| - 8..])
  }

  /** `^...\s+(\d{2}):(\d{2})$`: a day, a gap, then a time without seconds. */
  predicate IsMinuteShape(s: string) {
    |s| >= 16 && IsDayPart(s[..10]) && IsGap(s[10..|s| - 5]) && IsMinutePart(s[|s| - 5..])
  }

  /**
   * The fields of the first of the five patterns that the whole string matches,
   * in the order they are tried; missing parts take their defaults: month 7 and
   * day 1 for a bare year, day 15 for a month, 12:00:00 for a day, 0 seconds for
   * a time without seconds.
   */
  function MatchDate(s: string): Option<Date> {
    if IsFullShape(s) then
      var p, t := s[..10], s[|s| - 8..];
      Some(Date(Value(p[..4]), Value(p[5..7]), Value(p[8..]), Value(t[..2]), Value(t[3..5]), Value(t[6..])))
    else if IsMinuteShape(s) then
      var p, t := s[..10], s[|s| - 5..];
      Some(Date(Value(p[..4]), Value(p[5..7]), Value(p[8..]), Value(t[..2]), Value(t[3..]), 0))
    else if IsDayPart(s) then Some(Date(Value(s[..4]), Value(s[5..7]), Value(s[8..]), 12, 0, 0))
    else if IsMonthPart(s) then Some(Date(Value(s[..4]), Value(s[5..]), 15, 12, 0, 0))
    else if IsYearPart(s) then Some(Date(Value(s), 7, 1, 12, 0, 0))
    else None
  }

  /**
   * `parse_date_string`: strip, match, build the `datetime`. `None` stands for
   * the `ValueError` raised for an unknown shape or an impossible date.
   */
  function ParseDateString(input: string): Option<DateTime> {
    match MatchDate(Strip(input))
    case None => None
    case Some(f) => MakeDate(f.year, f.month, f.day, f.hour, f.minute, f.second)
  }

  // ------------------------------------------------------------ formatting, for the round trips

  function DayText(y: nat, m: nat, d: nat): string {
    Padded(y, 4) + "-" + Padded(m, 2) + "-" + Padded(d, 2)
  }

  function MinuteText(h: nat, mi: nat): string {
    Padded(h, 2) + ":" + Padded(mi, 2)
  }

  function SecondText(h: nat, mi: nat, s: nat): string {
    Padded(h, 2) + ":" + Padded(mi, 2) + ":" + Padded(s, 2)
  }

  lemma DayTextParts(y: nat, m: nat, d: nat)
    requires y < 10000 && m < 100 && d < 100
    ensures var s := DayText(y, m, d);
      IsDayPart(s) && Value(s[..4]) == y && Value(s[5..7]) == m && Value(s[8..]) == d
      && s[0] == Padded(y, 4)[0] && s[9] == Padded(d, 2)[1]
  {
    var s := DayText(y, m, d);
    assert s[..4] == Padded(y, 4);
    assert s[5..7] == Padded(m, 2);
    assert s[8..] == Padded(d, 2);
    PaddedValue(y, 4);
    PaddedValue(m, 2);
    PaddedValue(d, 2);
  }

  lemma MinuteTextParts(h: nat, mi: nat)
    requires h < 100 && mi < 100
    ensures var t := MinuteText(h, mi);
      IsMinutePart(t) && Value(t[..2]) == h && Value(t[3..]) == mi
  {
    var t := MinuteText(h, mi);
    assert t[..2] == Padded(h, 2);
    assert t[3..] == Padded(mi, 2);
    PaddedValue(h, 2);
    PaddedValue(mi, 2);
  }

  lemma SecondTextParts(h: nat, mi: nat, sec: nat)
    requires h < 100 && mi < 100 && sec < 100
    ensures var t := SecondText(h, mi, sec);
      IsSecondPart(t) && Value(t[..2]) == h && Value(t[3..5]) == mi && Value(t[6..]) == sec
  {
    var t := SecondText(h, mi, sec);
    assert t[..2] == Padded(h, 2);
    assert t[3..5] == Padded(mi, 2);
    assert t[6..] == Padded(sec, 2);
    PaddedValue(h, 2);
    PaddedValue(mi, 2);
    PaddedValue(sec, 2);
  }

  /** A digit is not whitespace, so a string that starts and ends with digits is its own `strip()`. */
  lemma StripDigitEnds(s: string)
    requires |s| >= 1 && IsDigit(s[0]) && IsDigit(s[|s| - 1])
    ensures Strip(s) == s
  {
    assert TrimLeft(s) == s;
  }

  /** Any string of a shape is its own `strip()`, and parses to the fields it spells. */
  lemma FullShapeParses(s: string)
    requires IsFullShape(s)
    ensures var p, t := s[..10], s[|s| - 8..];
      ParseDateString(s) == MakeDate(Value(p[..4]), Value(p[5..7]), Value(p[8..]), Value(t[..2]), Value(t[3..5]), Value(t[6..]))
  {
    assert s[..10][0] == s[0] && s[|s| - 8..][7] == s[|s| - 1];
    StripDigitEnds(s);
  }

  lemma MinuteShapeParses(s: string)
    requires IsMinuteShape(s)
    ensures var p, t := s[..10], s[|s| - 5..];
      ParseDateString(s) == MakeDate(Value(p[..4]), Value(p[5..7]), Value(p[8..]), Value(t[..2]), Value(t[3..]), 0)
  {
    assert s[..10][0] == s[0] && s[|s| - 5..][4] == s[|s| - 1];
    assert !IsFullShape(s) by {
      if |s| >= 19 {
        assert s[|s| - 8..][2] == s[10..|s| - 5][|s| - 16];
      }
    }
    StripDigitEnds(s);
  }

  lemma DayShapeParses(s: string)
    requires IsDayPart(s)
    ensures ParseDateString(s) == MakeDate(Value(s[..4]), Value(s[5..7]), Value(s[8..]), 12, 0, 0)
  {
    assert s[..4][0] == s[0] && s[8..][1] == s[|s| - 1];
    StripDigitEnds(s);
    MatchDay(s);
  }

  lemma MonthShapeParses(s: string)
    requires IsMonthPart(s)
    ensures ParseDateString(s) == MakeDate(Value(s[..4]), Value(s[5..]), 15, 12, 0, 0)
  {
    assert s[..4][0] == s[0] && s[5..][1] == s[|s| - 1];
    StripDigitEnds(s);
    MatchMonth(s);
  }

  lemma YearShapeParses(s: string)
    requires IsYearPart(s)
    ensures ParseDateString(s) == MakeDate(Value(s), 7, 1, 12, 0, 0)
  {
    StripDigitEnds(s);
    MatchYear(s);
  }

  lemma MatchDay(s: string)
    requires IsDayPart(s)
    ensures MatchDate(s) == Some(Date(Value(s[..4]), Value(s[5..7]), Value(s[8..]), 12, 0, 0))
  {
    assert !IsFullShape(s) && !IsMinuteShape(s);
  }

  lemma MatchMonth(s: string)
    requires IsMonthPart(s)
    ensures MatchDate(s) == Some(Date(Value(s[..4]), Value(s[5..]), 15, 12, 0, 0))
  {
    assert !IsFullShape(s) && !IsMinuteShape(s) && !IsDayPart(s);
  }

  lemma MatchYear(s: string)
    requires IsYearPart(s)
    ensures MatchDate(s) == Some(Date(Value(s), 7, 1, 12, 0, 0))
  {
    assert !IsFullShape(s) && !IsMinuteShape(s) && !IsDayPart(s) && !IsMonthPart(s);
  }

  /** `YYYY-MM-DD<gap>HH:MM:SS` reads back as exactly that time. */
  lemma ParseFull(y: nat, m: nat, d: nat, h: nat, mi: nat, sec: nat, gap: string)
    requires y < 10000 && m < 100 && d < 100 && h < 100 && mi < 100 && sec < 100 && IsGap(gap)
    ensures ParseDateString(DayText(y, m, d) + gap + SecondText(h, mi, sec)) == MakeDate(y, m, d, h, mi, sec)
  {
    var day := DayText(y, m, d);
    var t := SecondText(h, mi, sec);
    var s := day + gap + t;
    DayTextParts(y, m, d);
    SecondTextParts(h, mi, sec);
    assert s[..10] == day && s[10..|s| - 8] == gap && s[|s| - 8..] == t;
    FullShapeParses(s);
  }

  /** `YYYY-MM-DD<gap>HH:MM` reads back with zero seconds. */
  lemma ParseMinutes(y: nat, m: nat, d: nat, h: nat, mi: nat, gap: string)
    requires y < 10000 && m < 100 && d < 100 && h < 100 && mi < 100 && IsGap(gap)
    ensures ParseDateString(DayText(y, m, d) + gap + MinuteText(h, mi)) == MakeDate(y, m, d, h, mi, 0)
  {
    var day := DayText(y, m, d);
    var t := MinuteText(h, mi);
    var s := day + gap + t;
    DayTextParts(y, m, d);
    MinuteTextParts(h, mi);
    assert s[..10] == day && s[10..|s| - 5] == gap && s[|s| - 5..] == t;
    MinuteShapeParses(s);
  }

  /** `YYYY-MM-DD` reads back at noon. */
  lemma ParseDay(y: nat, m: nat, d: nat)
    requires y < 10000 && m < 100 && d < 100
    ensures ParseDateString(DayText(y, m, d)) == MakeDate(y, m, d, 12, 0, 0)
  {
    DayTextParts(y, m, d);
    DayShapeParses(DayText(y, m, d));
  }

  /** `YYYY-MM` reads back as noon on the 15th. */
  lemma ParseMonth(y: nat, m: nat)
    requires y < 10000 && m < 100
    ensures ParseDateString(Padded(y, 4) + "-" + Padded(m, 2)) == MakeDate(y, m, 15, 12, 0, 0)
  {
    var s := Padded(y, 4) + "-" + Padded(m, 2);
    assert s[..4] == Padded(y, 4) && s[5..] == Padded(m, 2);
    PaddedValue(y, 4);
    PaddedValue(m, 2);
    MonthShapeParses(s);
  }

  /** `YYYY` reads back as noon on the first of July. */
  lemma ParseYear(y: nat)
    requires y < 10000
    ensures ParseDateString(Padded(y, 4)) == MakeDate(y, 7, 1, 12, 0, 0)
  {
    YearShapeParses(Padded(y, 4));
    PaddedValue(y, 4);
  }

  /** Every `datetime` written as `YYYY-MM-DD HH:MM:SS` reads back as itself. */
  lemma ParseRoundTrip(dt: DateTime)
    ensures ParseDateString(DayText(dt.year, dt.month, dt.day) + " " + SecondText(dt.hour, dt.minute, dt.second)) == Some(dt)
  {
    ParseFull(dt.year, dt.month, dt.day, dt.hour, dt.minute, dt.second, " ");
  }

  /** Year 0 and the 29th of February of a common year are refused. */
  lemma ParseRefusesImpossibleDates(y: nat)
    requires y < 10000 && !IsLeap(y)
    ensures ParseDateString(Padded(0, 4)) == None
    ensures ParseDateString(DayText(y, 2, 29)) == None
  {
    ParseYear(0);
    ParseDay(y, 2, 29);
  }

  /** Only the five shapes parse: after `strip()`, anything else raises `ValueError`. */
  lemma ParseOnlyShapes(s: string)
    requires ParseDateString(s).Some?
    ensures var t := Strip(s);
      IsFullShape(t) || IsMinuteShape(t) || IsDayPart(t) || IsMonthPart(t) || IsYearPart(t)
  {
  }

  /** Whitespace around the typed date is ignored. */
  lemma ParseIgnoresPadding(w1: string, s: string, w2: string)
    requires AllSpace(w1) && AllSpace(w2)
    ensures ParseDateString(w1 + s + w2) == ParseDateString(s)
  {
    StripPadding(w1, s, w2);
  }

  // ------------------------------------------------------------ collecting the files

  /** What `assign_date` works on: the single file, or the visible media files of the folder. */
  datatype Collected = NotMediaSource(name: string) | MediaFiles(paths: seq<Path>)

  function CollectSpec(d: Disk, source: Path): Collected {
    if d.IsFile(source) then
      if IsMedia(Name(source)) then MediaFiles([source]) else NotMediaSource(Name(source))
    else MediaFiles(MediaIn(Paths(d.Walk(source))))
  }

  method CollectMedia(fs: FileSystem, source: Path) returns (c: Collected)
    ensures c == CollectSpec(fs.Snapshot(), source)
  {
    if fs.Snapshot().IsFile(source) {
      var name := Name(source);
      if IsMedia(name) {
        return MediaFiles([source]);
      }
      return NotMediaSource(name);
    }
    var walk := Paths(fs.Snapshot().Walk(source));
    var media: seq<Path> := [];
    var i := 0;
    while i < |walk|
      invariant 0 <= i <= |walk|
      invariant media == MediaIn(walk[..i])
    {
      assert walk[..i + 1][..i] == walk[..i];
      var name := Name(walk[i]);
      if !IsHidden(name) && IsMedia(name) {
        media := media + [walk[i]];
      }
      i := i + 1;
    }
    assert walk[..i] == walk;
    return MediaFiles(media);
  }

  // ------------------------------------------------------------ assigning

  datatype FileResult = Updated | Skipped | Failed

  datatype Totals = Totals(updated: nat, skipped: nat, errors: nat) {
    function Add(r: FileResult): Totals {
      match r
      case Updated => this.(updated := updated + 1)
      case Skipped => this.(skipped := skipped + 1)
      case Failed => this.(errors := errors + 1)
    }

    function Count(): nat {
      updated + skipped + errors
    }
  }

  datatype StepResult = StepResult(disk: Disk, result: FileResult)

  /**
   * One file: an unreadable modification time is an error; a file already at the
   * target time is skipped; otherwise a dry run counts it as updated, and a real
   * run sets the time, or counts an error when the file cannot be changed.
   */
  function AssignOneSpec(d: Disk, p: Path, target: DateTime, dryRun: bool): StepResult {
    match d.Find(p)
    case None => StepResult(d, Failed)
    case Some(info) =>
      if info.statError.Some? then StepResult(d, Failed)
      else if info.mtime == target then StepResult(d, Skipped)
      else if dryRun then StepResult(d, Updated)
      else if info.locked then StepResult(d, Failed)
      else StepResult(d.SetMtime(p, target), Updated)
  }

  datatype RunResult = RunResult(disk: Disk, totals: Totals)

  function AssignRun(d: Disk, paths: seq<Path>, target: DateTime, dryRun: bool, acc: Totals): RunResult
    decreases |paths|
  {
    if paths == [] then RunResult(d, acc)
    else
      var s := AssignOneSpec(d, paths[0], target, dryRun);
      AssignRun(s.disk, paths[1..], target, dryRun, acc.Add(s.result))
  }

  datatype Report = NotAccessible | InvalidDate | NotMediaFile(name: string) | NoMediaFiles | Summary(totals: Totals)

  datatype AssignResult = AssignResult(disk: Disk, report: Report)

  /** `assign_date(source, date_str, dry_run)`. */
  function AssignDateSpec(d: Disk, source: Path, dateStr: string, dryRun: bool): AssignResult {
    if !d.Exists(source) then AssignResult(d, NotAccessible)
    else match ParseDateString(dateStr)
      case None => AssignResult(d, InvalidDate)
      case Some(target) =>
        match CollectSpec(d, source)
        case NotMediaSource(name) => AssignResult(d, NotMediaFile(name))
        case MediaFiles(paths) =>
          if paths == [] then AssignResult(d, NoMediaFiles)
          else
            var r := AssignRun(d, paths, target, dryRun, Totals(0, 0, 0));
            AssignResult(r.disk, Summary(r.totals))
  }

  method AssignOne(fs: FileSystem, p: Path, target: DateTime, dryRun: bool) returns (result: FileResult)
    modifies fs
    ensures StepResult(fs.Snapshot(), result) == AssignOneSpec(old(fs.Snapshot()), p, target, dryRun)
  {
    var found := fs.Snapshot().Find(p);
    if found.None? || found.value.statError.Some? {
      return Failed;
    }
    var info := found.value;
    if info.mtime == target {
      return Skipped;
    }
    if dryRun {
      return Updated;
    }
    if info.locked {
      return Failed;
    }
    fs.SetMtime(p, target);
    return Updated;
  }

  method AssignAll(fs: FileSystem, paths: seq<Path>, target: DateTime, dryRun: bool) returns (totals: Totals)
    modifies fs
    ensures RunResult(fs.Snapshot(), totals) == AssignRun(old(fs.Snapshot()), paths, target, dryRun, Totals(0, 0, 0))
  {
    ghost var d0 := fs.Snapshot();
    totals := Totals(0, 0, 0);
    var i := 0;
    while i < |paths|
      invariant 0 <= i <= |paths|
      invariant AssignRun(d0, paths, target, dryRun, Totals(0, 0, 0)) == AssignRun(fs.Snapshot(), paths[i..], target, dryRun, totals)
    {
      assert paths[i..][0] == paths[i] && paths[i..][1..] == paths[i + 1..];
      var result := AssignOne(fs, paths[i], target, dryRun);
      totals := totals.Add(result);
      i := i + 1;
    }
    assert paths[i..] == [];
  }

  method Assign(fs: FileSystem, source: Path, dateStr: string, dryRun: bool) returns (report: Report)
    modifies fs
    ensures AssignResult(fs.Snapshot(), report) == AssignDateSpec(old(fs.Snapshot()), source, dateStr, dryRun)
  {
    if !fs.Snapshot().Exists(source) {
      return NotAccessible;
    }
    var parsed := ParseDateString(dateStr);
    if parsed.None? {
      return InvalidDate;
    }
    var target := parsed.value;
    var collected := CollectMedia(fs, source);
    if collected.NotMediaSource? {
      return NotMediaFile(collected.name);
    }
    if collected.paths == [] {
      return NoMediaFiles;
    }
    var totals := AssignAll(fs, collected.paths, target, dryRun);
    return Summary(totals);
  }

  // ------------------------------------------------------------ properties

  /** Every file is counted exactly once: updated, skipped or failed. */
  lemma {:induction false} AssignRunCounts(d: Disk, paths: seq<Path>, target: DateTime, dryRun: bool, acc: Totals)
    ensures AssignRun(d, paths, target, dryRun, acc).totals.Count() == acc.Count() + |paths|
    decreases |paths|
  {
    if paths != [] {
      var s := AssignOneSpec(d, paths[0], target, dryRun);
      AssignRunCounts(s.disk, paths[1..], target, dryRun, acc.Add(s.result));
    }
  }

  /** A dry run changes nothing on the disk. */
  lemma {:induction false} AssignDryRunChangesNothing(d: Disk, paths: seq<Path>, target: DateTime, acc: Totals)
    ensures AssignRun(d, paths, target, true, acc).disk == d
    decreases |paths|
  {
    if paths != [] {
      AssignDryRunChangesNothing(d, paths[1..], target, acc.Add(AssignOneSpec(d, paths[0], target, true).result));
    }
  }

  /**
   * A file is settled once assigning it again cannot update it: its time is
   * unreadable, it already carries the target time, or it cannot be changed.
   */
  predicate Settled(d: Disk, p: Path, target: DateTime) {
    match d.Find(p)
    case None => true
    case Some(info) => info.statError.Some? || info.mtime == target || info.locked
  }

  /** A real step only ever changes the modification time of its own file, to the target. */
  lemma AssignOneOnlySetsTarget(d: Disk, p: Path, target: DateTime, q: Path)
    ensures var s := AssignOneSpec(d, p, target, false);
      && s.disk.dirs == d.dirs
      && s.disk.Find(q) == (if s.result == Updated && q == p then Some(d.Find(q).value.(mtime := target)) else d.Find(q))
      && (s.result == Updated ==> d.Find(p).Some? && d.Find(p).value.mtime != target)
      && Settled(s.disk, p, target)
  {
    FindAfterSetMtime(d.files, p, target, q);
    FindAfterSetMtime(d.files, p, target, p);
  }

  lemma {:induction false} AssignRunKeepsSettled(d: Disk, paths: seq<Path>, target: DateTime, acc: Totals, q: Path)
    requires Settled(d, q, target)
    ensures Settled(AssignRun(d, paths, target, false, acc).disk, q, target)
    decreases |paths|
  {
    if paths != [] {
      var s := AssignOneSpec(d, paths[0], target, false);
      AssignOneOnlySetsTarget(d, paths[0], target, q);
      AssignRunKeepsSettled(s.disk, paths[1..], target, acc.Add(s.result), q);
    }
  }

  /** After a real run every file of the list is settled. */
  lemma {:induction false} AssignRunSettles(d: Disk, paths: seq<Path>, target: DateTime, acc: Totals)
    ensures forall q | q in paths :: Settled(AssignRun(d, paths, target, false, acc).disk, q, target)
    decreases |paths|
  {
    if paths != [] {
      var s := AssignOneSpec(d, paths[0], target, false);
      AssignOneOnlySetsTarget(d, paths[0], target, paths[0]);
      AssignRunSettles(s.disk, paths[1..], target, acc.Add(s.result));
      AssignRunKeepsSettled(s.disk, paths[1..], target, acc.Add(s.result), paths[0]);
    }
  }

  /** On settled files a run updates nothing and leaves the disk as it is. */
  lemma {:induction false} SettledRunUpdatesNothing(d: Disk, paths: seq<Path>, target: DateTime, acc: Totals)
    requires forall q | q in paths :: Settled(d, q, target)
    ensures AssignRun(d, paths, target, false, acc).totals.updated == acc.updated
    ensures AssignRun(d, paths, target, false, acc).disk == d
    decreases |paths|
  {
    if paths != [] {
      assert Settled(d, paths[0], target);
      var s := AssignOneSpec(d, paths[0], target, false);
      assert s.disk == d && s.result != Updated;
      SettledRunUpdatesNothing(d, paths[1..], target, acc.Add(s.result));
    }
  }

  lemma {:induction false} AssignRunKeepsShape(d: Disk, paths: seq<Path>, target: DateTime, acc: Totals)
    ensures var r := AssignRun(d, paths, target, false, acc).disk;
      && r.dirs == d.dirs
      && (forall q :: r.IsFile(q) == d.IsFile(q))
      && (forall root :: Paths(r.Walk(root)) == Paths(d.Walk(root)))
    decreases |paths|
  {
    if paths != [] {
      var s := AssignOneSpec(d, paths[0], target, false);
      forall q ensures s.disk.IsFile(q) == d.IsFile(q) {
        AssignOneOnlySetsTarget(d, paths[0], target, q);
      }
      forall root ensures Paths(s.disk.Walk(root)) == Paths(d.Walk(root)) {
        SetMtimeKeepsWalk(d.files, paths[0], target, root);
      }
      AssignRunKeepsShape(s.disk, paths[1..], target, acc.Add(s.result));
    }
  }

  /**
   * Assigning a date is idempotent: after a real run that reached its files, a
   * second real run with the same arguments finds the same files, updates none
   * of them and changes nothing.
   */
  lemma AssignTwiceUpdatesNothing(d: Disk, source: Path, dateStr: string)
    requires AssignDateSpec(d, source, dateStr, false).report.Summary?
    ensures var first := AssignDateSpec(d, source, dateStr, false);
      var second := AssignDateSpec(first.disk, source, dateStr, false);
      && second.report.Summary?
      && second.report.totals.updated == 0
      && second.report.totals.Count() == first.report.totals.Count()
      && second.disk == first.disk
  {
    var target := ParseDateString(dateStr).value;
    var paths := CollectSpec(d, source).paths;
    var first := AssignRun(d, paths, target, false, Totals(0, 0, 0));
    AssignRunKeepsShape(d, paths, target, Totals(0, 0, 0));
    assert CollectSpec(first.disk, source) == CollectSpec(d, source);
    AssignRunSettles(d, paths, target, Totals(0, 0, 0));
    SettledRunUpdatesNothing(first.disk, paths, target, Totals(0, 0, 0));
    AssignRunCounts(d, paths, target, false, Totals(0, 0, 0));
    AssignRunCounts(first.disk, paths, target, false, Totals(0, 0, 0));
  }

  /** A single source file that is not a photo or video is refused before any file is touched. */
  lemma AssignRejectsNonMediaFile(d: Disk, source: Path, dateStr: string, dryRun: bool)
    requires d.IsFile(source) && !IsMedia(Name(source)) && ParseDateString(dateStr).Some?
    ensures AssignDateSpec(d, source, dateStr, dryRun) == AssignResult(d, NotMediaFile(Name(source)))
  {
  }

  /** A dry run of `assign_date` leaves the disk exactly as it was. */
  lemma AssignDateDryRun(d: Disk, source: Path, dateStr: string)
    ensures AssignDateSpec(d, source, dateStr, true).disk == d
  {
    if d.Exists(source) && ParseDateString(dateStr).Some? && CollectSpec(d, source).MediaFiles? {
      AssignDryRunChangesNothing(d, CollectSpec(d, source).paths, ParseDateString(dateStr).value, Totals(0, 0, 0));
    }
  }

  /** The summary accounts for every media file found, and only visible media files are touched. */
  lemma AssignDateCounts(d: Disk, source: Path, dateStr: string, dryRun: bool)
    requires AssignDateSpec(d, source, dateStr, dryRun).report.Summary?
    ensures CollectSpec(d, source).MediaFiles?
    ensures AssignDateSpec(d, source, dateStr, dryRun).report.totals.Count() == |CollectSpec(d, source).paths| > 0
    ensures forall p | p in CollectSpec(d, source).paths :: IsMedia(Name(p)) && (p == source || !IsHidden(Name(p)))
  {
    AssignRunCounts(d, CollectSpec(d, source).paths, ParseDateString(dateStr).value, dryRun, Totals(0, 0, 0));
    if !d.IsFile(source) {
      MediaInSubset(Paths(d.Walk(source)));
    }
  }
}

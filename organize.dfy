/**
 * The folder-organisation engine: for each top-level folder of the source, the
 * media files are classified and dated, the folder's (year, month) bucket is the
 * most frequent one, and the folder is moved whole to `root/YYYY/MM/name`, or its
 * files are scattered one by one into their own `root/YYYY/MM/`, or it is skipped.
 */
module Organize {
  import opened Wrappers
  import opened Text
  import opened Dates
  import opened Media
  import opened Common
  import opened FileSystem

  // ------------------------------------------------------------ dating

  /**
   * The date of one media file: for a photo, the EXIF capture date if it can be
   * read and parsed (`get_photo_date`), otherwise, and for every video, the
   * modification time. `None` when `os.path.getmtime` raises: nothing catches
   * that error, so it ends the run.
   */
  function FileDate(kind: Kind, info: FileInfo): Option<DateTime> {
    if kind == Photo && info.exif.Some? then info.exif
    else if info.statError.Some? then None
    else Some(info.mtime)
  }

  /** A visible photo or video of the walk whose date cannot be read. */
  predicate DateFails(e: Entry) {
    !IsHidden(Name(e.path)) && KindOf(Name(e.path)) != Other && FileDate(KindOf(Name(e.path)), e.info).None?
  }

  /** Some file of the walk has a date that cannot be read. */
  predicate AnyDateFails(walk: seq<Entry>) {
    exists i | 0 <= i < |walk| :: DateFails(walk[i])
  }

  /** The dates, photo count and video count `classify_folder` returns. */
  datatype Classification = Classification(dates: seq<DateTime>, photos: nat, videos: nat)

  /** One file of the walk: a visible photo or video with a readable date adds that date and one to its count. */
  function AddFile(c: Classification, e: Entry): Classification {
    var name := Name(e.path);
    if IsHidden(name) || KindOf(name) == Other then c
    else match FileDate(KindOf(name), e.info)
      case None => c
      case Some(t) =>
        if KindOf(name) == Photo then Classification(c.dates + [t], c.photos + 1, c.videos)
        else Classification(c.dates + [t], c.photos, c.videos + 1)
  }

  /** The loop of `classify_folder` over the files of a walk, in walk order. */
  function Scan(walk: seq<Entry>): Classification {
    if walk == [] then Classification([], 0, 0)
    else AddFile(Scan(walk[..|walk| - 1]), walk[|walk| - 1])
  }

  /**
   * `classify_folder` over a walk: it raises (`None`) as soon as one date cannot
   * be read, and otherwise returns what its loop collected.
   */
  function Classify(walk: seq<Entry>): Option<Classification> {
    if AnyDateFails(walk) then None else Some(Scan(walk))
  }

  /** How many files of a walk are visible and of kind `k`. */
  function CountKind(walk: seq<Entry>, k: Kind): nat {
    if walk == [] then 0
    else
      var name := Name(walk[|walk| - 1].path);
      CountKind(walk[..|walk| - 1], k) + if !IsHidden(name) && KindOf(name) == k then 1 else 0
  }

  /**
   * Exactly one date per visible photo or video: when no date fails, the counts
   * are the numbers of visible photos and videos, and hidden and other files add
   * nothing.
   */
  lemma {:induction false} ClassifyCounts(walk: seq<Entry>)
    ensures Classify(walk).Some? ==> Classify(walk).value.photos == CountKind(walk, Photo)
    ensures Classify(walk).Some? ==> Classify(walk).value.videos == CountKind(walk, Video)
    ensures |Scan(walk).dates| == Scan(walk).photos + Scan(walk).videos
  {
    if walk != [] {
      var pre := walk[..|walk| - 1];
      ClassifyCounts(pre);
      if !AnyDateFails(walk) {
        assert !DateFails(walk[|walk| - 1]);
        assert !AnyDateFails(pre) by {
          forall i | 0 <= i < |pre| ensures !DateFails(pre[i]) {
            assert pre[i] == walk[i];
          }
        }
      }
    }
  }

  /** The body of `classify_folder`'s loop for one file; `failed` when its date cannot be read. */
  method ClassifyFile(e: Entry, dates0: seq<DateTime>, photos0: nat, videos0: nat)
    returns (dates: seq<DateTime>, photos: nat, videos: nat, failed: bool)
    ensures failed <==> DateFails(e)
    ensures !failed ==> Classification(dates, photos, videos) == AddFile(Classification(dates0, photos0, videos0), e)
  {
    dates, photos, videos, failed := dates0, photos0, videos0, false;
    var name := Name(e.path);
    var kind := KindOf(name);
    if IsHidden(name) || kind == Other {
      return;
    }
    var date := FileDate(kind, e.info);
    if date.None? {
      failed := true;
    } else if kind == Photo {
      dates, photos := dates + [date.value], photos + 1;
    } else {
      dates, videos := dates + [date.value], videos + 1;
    }
  }

  /** `classify_folder(folder)`: walks the folder's files on the current disk; `failed` when it raises. */
  method ClassifyFolder(fs: FileSystem, folder: Path) returns (dates: seq<DateTime>, photos: nat, videos: nat, failed: bool)
    ensures failed <==> Classify(fs.Snapshot().Walk(folder)).None?
    ensures !failed ==> Classify(fs.Snapshot().Walk(folder)) == Some(Classification(dates, photos, videos))
  {
    var walk := fs.Snapshot().Walk(folder);
    dates, photos, videos, failed := [], 0, 0, false;
    var i := 0;
    while i < |walk|
      invariant 0 <= i <= |walk|
      invariant forall j | 0 <= j < i :: !DateFails(walk[j])
      invariant Scan(walk[..i]) == Classification(dates, photos, videos)
    {
      assert Scan(walk[..i + 1]) == AddFile(Scan(walk[..i]), walk[i]) by {
        assert walk[..i + 1][..i] == walk[..i];
      }
      dates, photos, videos, failed := ClassifyFile(walk[i], dates, photos, videos);
      if failed {
        assert AnyDateFails(walk);
        return;
      }
      assert forall j | 0 <= j < i + 1 :: !DateFails(walk[j]) by {
        assert !DateFails(walk[i]);
      }
      i := i + 1;
    }
    assert walk[..i] == walk;
  }

  // ------------------------------------------------------------ the bucket vote

  /** A (year, month) pair. */
  datatype Bucket = Bucket(year: nat, month: nat)

  function BucketOf(d: DateTime): Bucket {
    Bucket(d.year, d.month)
  }

  function Buckets(dates: seq<DateTime>): (bs: seq<Bucket>)
    ensures |bs| == |dates| && forall i | 0 <= i < |dates| :: bs[i] == BucketOf(dates[i])
  {
    seq(|dates|, i requires 0 <= i < |dates| => BucketOf(dates[i]))
  }

  /** How often `b` occurs in `bs`: the `Counter` value of `b`. */
  function Occurrences(bs: seq<Bucket>, b: Bucket): nat {
    if bs == [] then 0 else Occurrences(bs[..|bs| - 1], b) + if bs[|bs| - 1] == b then 1 else 0
  }

  /** The position of the first occurrence of `b`: its place in the `Counter`'s insertion order. */
  function FirstIndex(bs: seq<Bucket>, b: Bucket): (i: nat)
    requires b in bs
    ensures i < |bs| && bs[i] == b && forall j | 0 <= j < i :: bs[j] != b
  {
    if bs[0] == b then 0 else 1 + FirstIndex(bs[1..], b)
  }

  /**
   * `Counter(...).most_common(1)[0][0]`: the counts are visited in insertion order
   * and the first key with the maximal count wins. Visiting every position is the
   * same, since a repeated key never has a strictly greater count than itself.
   */
  function BestFrom(bs: seq<Bucket>, i: nat, best: Bucket): (b: Bucket)
    requires i <= |bs| && best in bs[..i]
    requires forall j | 0 <= j < i :: Occurrences(bs, bs[j]) <= Occurrences(bs, best)
    requires forall j | 0 <= j < FirstIndex(bs, best) :: Occurrences(bs, bs[j]) < Occurrences(bs, best)
    ensures b in bs
    ensures forall j | 0 <= j < |bs| :: Occurrences(bs, bs[j]) <= Occurrences(bs, b)
    ensures forall j | 0 <= j < FirstIndex(bs, b) :: Occurrences(bs, bs[j]) < Occurrences(bs, b)
    decreases |bs| - i
  {
    if i == |bs| then
      assert bs[..i] == bs;
      best
    else if Occurrences(bs, bs[i]) > Occurrences(bs, best) then
      NewBest(bs, i, best);
      BestFrom(bs, i + 1, bs[i])
    else
      KeepBest(bs, i, best);
      BestFrom(bs, i + 1, best)
  }

  /** A strictly greater count at position `i` makes `bs[i]` the best so far. */
  lemma NewBest(bs: seq<Bucket>, i: nat, best: Bucket)
    requires i < |bs| && best in bs[..i]
    requires forall j | 0 <= j < i :: Occurrences(bs, bs[j]) <= Occurrences(bs, best)
    requires Occurrences(bs, bs[i]) > Occurrences(bs, best)
    ensures bs[i] in bs[..i + 1]
    ensures forall j | 0 <= j < i + 1 :: Occurrences(bs, bs[j]) <= Occurrences(bs, bs[i])
    ensures forall j | 0 <= j < FirstIndex(bs, bs[i]) :: Occurrences(bs, bs[j]) < Occurrences(bs, bs[i])
  {
    FirstIndexBound(bs, i);
  }

  /** A count at position `i` no greater than the best's keeps the best. */
  lemma KeepBest(bs: seq<Bucket>, i: nat, best: Bucket)
    requires i < |bs| && best in bs[..i]
    requires forall j | 0 <= j < i :: Occurrences(bs, bs[j]) <= Occurrences(bs, best)
    requires Occurrences(bs, bs[i]) <= Occurrences(bs, best)
    ensures best in bs[..i + 1]
    ensures forall j | 0 <= j < i + 1 :: Occurrences(bs, bs[j]) <= Occurrences(bs, best)
  {
    assert bs[..i + 1] == bs[..i] + [bs[i]];
  }

  lemma FirstIndexBound(bs: seq<Bucket>, i: nat)
    requires i < |bs|
    ensures FirstIndex(bs, bs[i]) <= i
  {
  }

  /**
   * `choose_target_date`: the most frequent (year, month); among equally frequent
   * ones, the one whose first occurrence comes first.
   */
  function ChooseTargetDate(dates: seq<DateTime>): (b: Bucket)
    requires dates != []
    ensures b in Buckets(dates)
    ensures forall x | x in Buckets(dates) :: Occurrences(Buckets(dates), x) <= Occurrences(Buckets(dates), b)
    ensures forall j | 0 <= j < FirstIndex(Buckets(dates), b) ::
      Occurrences(Buckets(dates), Buckets(dates)[j]) < Occurrences(Buckets(dates), b)
  {
    var bs := Buckets(dates);
    assert bs[..1] == [bs[0]];
    BestFrom(bs, 1, bs[0])
  }

  lemma {:induction false} OccurrencesPositive(bs: seq<Bucket>, b: Bucket)
    requires b in bs
    ensures Occurrences(bs, b) > 0
  {
    if bs[|bs| - 1] != b {
      assert b in bs[..|bs| - 1];
      OccurrencesPositive(bs[..|bs| - 1], b);
    }
  }

  /** The chosen bucket is the bucket of at least one of the dates. */
  lemma ChosenBucketOccurs(dates: seq<DateTime>)
    requires dates != []
    ensures exists i | 0 <= i < |dates| :: BucketOf(dates[i]) == ChooseTargetDate(dates)
    ensures Occurrences(Buckets(dates), ChooseTargetDate(dates)) > 0
  {
    var b := ChooseTargetDate(dates);
    var i := FirstIndex(Buckets(dates), b);
    assert BucketOf(dates[i]) == b;
    OccurrencesPositive(Buckets(dates), b);
  }

  // ------------------------------------------------------------ the prompt

  /** The operator's decision and how many input lines it took. */
  datatype Choice = Choice(action: FolderAction, name: string, consumed: nat)

  /**
   * `prompt_user` over the lines the operator types. `None` means `input()` hit
   * the end of input; the `EOFError` it raises ends the run.
   */
  function PromptUser(name: string, lines: seq<string>): (r: Option<Choice>)
    ensures r.Some? ==> 1 <= r.value.consumed <= |lines|
  {
    if lines == [] then None else ReadChoice(name, Lower(Strip(lines[0])), lines[1..])
  }

  /** The answer once the first line has been stripped and lower-cased; only a rename reads one more line. */
  function ReadChoice(name: string, choice: string, rest: seq<string>): (r: Option<Choice>)
    ensures r.Some? ==> 1 <= r.value.consumed <= |rest| + 1
  {
    if choice == "r" then
      if rest == [] then None
      else
        var newName := Strip(rest[0]);
        Some(Choice(Rename, if newName == "" then name else newName, 2))
    else if choice == "u" then Some(Choice(Ungroup, name, 1))
    else if choice == "s" then Some(Choice(Skip, name, 1))
    else Some(Choice(Accept, name, 1))
  }

  /** Anything other than r, u or s, the empty line included, accepts with the original name. */
  lemma PromptUnknownAccepts(name: string, line: string, rest: seq<string>)
    requires Lower(Strip(line)) !in {"r", "u", "s"}
    ensures PromptUser(name, [line] + rest) == Some(Choice(Accept, name, 1))
  {
  }

  /** "u" ungroups and "s" skips, both under the original name and reading one line. */
  lemma PromptUngroupSkip(name: string, line: string, rest: seq<string>)
    ensures Lower(Strip(line)) == "u" ==> PromptUser(name, [line] + rest) == Some(Choice(Ungroup, name, 1))
    ensures Lower(Strip(line)) == "s" ==> PromptUser(name, [line] + rest) == Some(Choice(Skip, name, 1))
  {
    assert ([line] + rest)[0] == line;
  }

  lemma PromptEmptyLineAccepts(name: string, rest: seq<string>)
    ensures PromptUser(name, [""] + rest) == Some(Choice(Accept, name, 1))
  {
    assert Lower(Strip("")) == "";
  }

  /** A rename to a blank name keeps the original name. */
  lemma PromptBlankRenameKeepsName(name: string, line: string, blank: string, rest: seq<string>)
    requires Lower(Strip(line)) == "r" && AllSpace(blank)
    ensures PromptUser(name, [line, blank] + rest) == Some(Choice(Rename, name, 2))
  {
    var lines := [line, blank] + rest;
    assert lines[0] == line && lines[1] == blank;
    StripBlank(blank);
    var newName := Strip(lines[1]);
    assert newName == "";
    assert lines != [] && |lines| >= 2;
  }

  /** A rename to a non-blank name uses the stripped name, which is never empty. */
  lemma PromptRenameName(name: string, line: string, newName: string, rest: seq<string>)
    requires Lower(Strip(line)) == "r" && !AllSpace(newName)
    ensures PromptUser(name, [line, newName] + rest) == Some(Choice(Rename, Strip(newName), 2))
    ensures Strip(newName) != ""
  {
    StripBlank(newName);
    assert ([line, newName] + rest)[1] == newName;
  }

  /** Whitespace around the typed choice makes no difference. */
  lemma PromptIgnoresPadding(name: string, w1: string, c: string, w2: string, rest: seq<string>)
    requires AllSpace(w1) && AllSpace(w2)
    ensures PromptUser(name, [w1 + c + w2] + rest) == PromptUser(name, [c] + rest)
  {
    var a, b := [w1 + c + w2] + rest, [c] + rest;
    StripPadding(w1, c, w2);
    assert a[0] == w1 + c + w2 && b[0] == c;
    assert a[1..] == rest == b[1..];
    PromptReadsStripped(name, a, b);
  }

  /** The prompt sees its first line only through `strip()`. */
  lemma PromptReadsStripped(name: string, a: seq<string>, b: seq<string>)
    requires a != [] && b != [] && Strip(a[0]) == Strip(b[0]) && a[1..] == b[1..]
    ensures PromptUser(name, a) == PromptUser(name, b)
  {
    assert Lower(Strip(a[0])) == Lower(Strip(b[0]));
  }

  // ------------------------------------------------------------ moving

  /** `os.path.join(root, str(year), f"{month:02d}")`. */
  function DestDir(root: Path, b: Bucket): (dir: Path)
    ensures |dir| == |root| + 2 && dir[..|root|] == root
  {
    root + [Decimal(b.year), Padded(b.month, 2)]
  }

  /** Different buckets under the same root give different directories. */
  lemma DestDirInjective(root: Path, b1: Bucket, b2: Bucket)
    requires b1.month < 100 && b2.month < 100
    requires DestDir(root, b1) == DestDir(root, b2)
    ensures b1 == b2
  {
    assert DestDir(root, b1)[|root|] == Decimal(b1.year);
    assert DestDir(root, b1)[|root| + 1] == Padded(b1.month, 2);
    DecimalValue(b1.year);
    DecimalValue(b2.year);
    PaddedValue(b1.month, 2);
    PaddedValue(b2.month, 2);
  }

  /** What `move_entire_folder` did. */
  datatype FolderMove = DestinationExists(dest: Path) | WouldMoveFolder(dest: Path) | MovedFolder(dest: Path)

  datatype MoveResult = MoveResult(disk: Disk, outcome: FolderMove)

  /**
   * `os.path.exists(os.path.join(dir, name))` once `dir` has been made: the
   * names "." and ".." stand for `dir` itself and its parent, which always exist.
   */
  predicate DestExists(d: Disk, dir: Path, name: string) {
    name == "." || name == ".." || d.Exists(dir + [name])
  }

  /**
   * `move_entire_folder`: the bucket directory is created even in a dry run; an
   * existing destination is never replaced.
   */
  function MoveEntireFolderSpec(d: Disk, src: Path, destRoot: Path, b: Bucket, name: string, dryRun: bool): MoveResult {
    var dir := DestDir(destRoot, b);
    var d1 := d.MakeDirs(dir);
    var dest := dir + [name];
    if DestExists(d1, dir, name) then MoveResult(d1, DestinationExists(dest))
    else if dryRun then MoveResult(d1, WouldMoveFolder(dest))
    else MoveResult(d1.Move(src, dest), MovedFolder(dest))
  }

  method MoveEntireFolder(fs: FileSystem, src: Path, destRoot: Path, b: Bucket, name: string, dryRun: bool)
    returns (outcome: FolderMove)
    modifies fs
    ensures MoveResult(fs.Snapshot(), outcome) == MoveEntireFolderSpec(old(fs.Snapshot()), src, destRoot, b, name, dryRun)
  {
    var dir := DestDir(destRoot, b);
    fs.MakeDirs(dir);
    var dest := dir + [name];
    if DestExists(fs.Snapshot(), dir, name) {
      return DestinationExists(dest);
    }
    if dryRun {
      return WouldMoveFolder(dest);
    }
    fs.Move(src, dest);
    return MovedFolder(dest);
  }

  /** Moving a folder keeps the disk valid and every file record, and a dry run moves no file. */
  lemma MoveEntireFolderKeeps(d: Disk, src: Path, destRoot: Path, b: Bucket, name: string, dryRun: bool)
    requires d.Valid() && src != []
    ensures MoveEntireFolderSpec(d, src, destRoot, b, name, dryRun).disk.Valid()
    ensures Infos(MoveEntireFolderSpec(d, src, destRoot, b, name, dryRun).disk.files) == Infos(d.files)
    ensures dryRun || !MoveEntireFolderSpec(d, src, destRoot, b, name, dryRun).outcome.MovedFolder?
      ==> MoveEntireFolderSpec(d, src, destRoot, b, name, dryRun).disk.files == d.files
  {
    var dir := DestDir(destRoot, b);
    MakeDirsValid(d, dir);
    var d1 := d.MakeDirs(dir);
    var dest := dir + [name];
    if !DestExists(d1, dir, name) && !dryRun {
      DestAncestors(d1, dir, name);
      MoveToFreshPath(d1, src, dest);
    }
  }

  /**
   * What `move_entire_folder` does: the bucket directory `root/YYYY/MM` is made
   * in every mode; an existing `dest` is reported and the source left where it
   * is; a dry run only reports; a real run brings every file of the folder to
   * the same place under `dest`.
   */
  lemma MoveEntireFolderEffect(d: Disk, src: Path, destRoot: Path, b: Bucket, name: string, dryRun: bool)
    ensures var dir := DestDir(destRoot, b);
      var dest := dir + [name];
      var r := MoveEntireFolderSpec(d, src, destRoot, b, name, dryRun);
      && (r.outcome == DestinationExists(dest) <==> name == "." || name == ".." || d.MakeDirs(dir).Exists(dest))
      && (r.outcome == DestinationExists(dest) || r.outcome == WouldMoveFolder(dest) || r.outcome == MovedFolder(dest))
      && (!r.outcome.MovedFolder? ==> r.disk == d.MakeDirs(dir))
      && (r.outcome.MovedFolder? <==> !dryRun && name != "." && name != ".." && !d.MakeDirs(dir).Exists(dest))
      && (!AtOrUnder(dir, src) ==> forall i | 1 <= i <= |dir| :: r.disk.IsDir(dir[..i]))
      && (r.outcome.MovedFolder? && !AtOrUnder(dest, src) ==>
            forall f | f in d.files && AtOrUnder(f.path, src) :: Entry(Rebase(f.path, src, dest), f.info) in r.disk.files)
  {
    var dir := DestDir(destRoot, b);
    var d1 := d.MakeDirs(dir);
    var dest := dir + [name];
    if !DestExists(d1, dir, name) && !dryRun && !AtOrUnder(dest, src) {
      MoveArrives(d1, src, dest);
      if !AtOrUnder(dir, src) {
        forall i | 1 <= i <= |dir| ensures d1.Move(src, dest).IsDir(dir[..i]) {
          assert d1.IsDir(dir[..i]);
          assert !AtOrUnder(dir[..i], dest);
        }
      }
    }
  }

  /** After `makedirs(dir)`, every ancestor of `dir + [name]` is a directory. */
  lemma DestAncestors(d: Disk, dir: Path, name: string)
    requires forall i | 1 <= i <= |dir| :: d.IsDir(dir[..i])
    ensures AncestorsIn(dir + [name], d.dirs)
  {
    forall i | 1 <= i < |dir + [name]| ensures (dir + [name])[..i] in d.dirs {
      assert (dir + [name])[..i] == dir[..i];
    }
  }

  /** What `move_individual_files` did with one file of the walk. */
  datatype FileMove =
    | HiddenFile
    | NotMedia
    | MtimeFailed
    | FileExists(dest: Path)
    | WouldMoveFile(dest: Path)
    | MovedFile(dest: Path)

  datatype FileStep = FileStep(disk: Disk, outcome: FileMove)

  /** Where a media file of kind `k` dated `t` goes: its own dated bucket under its kind's root. */
  function FileDest(photoRoot: Path, videoRoot: Path, k: Kind, t: DateTime, name: string): Path {
    DestDir(if k == Photo then photoRoot else videoRoot, BucketOf(t)) + [name]
  }

  /**
   * One iteration of the loop in `move_individual_files`. A media file whose
   * date cannot be read raises before anything is done for it.
   */
  function MoveFileSpec(d: Disk, e: Entry, photoRoot: Path, videoRoot: Path, dryRun: bool): FileStep {
    var name := Name(e.path);
    if IsHidden(name) then FileStep(d, HiddenFile)
    else
      var k := KindOf(name);
      if k == Other then FileStep(d, NotMedia)
      else match FileDate(k, e.info)
        case None => FileStep(d, MtimeFailed)
        case Some(t) =>
          var dir := DestDir(if k == Photo then photoRoot else videoRoot, BucketOf(t));
          var d1 := d.MakeDirs(dir);
          var dest := dir + [name];
          if d1.Exists(dest) then FileStep(d1, FileExists(dest))
          else if dryRun then FileStep(d1, WouldMoveFile(dest))
          else FileStep(d1.Move(e.path, dest), MovedFile(dest))
  }

  datatype FilesResult = FilesResult(disk: Disk, outcomes: seq<FileMove>) {
    /** The loop ended with the error of an unreadable date. */
    predicate Aborted() {
      outcomes != [] && outcomes[|outcomes| - 1] == MtimeFailed
    }
  }

  /** The loop of `move_individual_files` over the walk of the source folder; an unreadable date ends it. */
  function MoveFilesSpec(d: Disk, walk: seq<Entry>, photoRoot: Path, videoRoot: Path, dryRun: bool): (r: FilesResult)
    ensures |r.outcomes| <= |walk|
    decreases |walk|
  {
    if walk == [] then FilesResult(d, [])
    else
      var s := MoveFileSpec(d, walk[0], photoRoot, videoRoot, dryRun);
      if s.outcome == MtimeFailed then FilesResult(s.disk, [s.outcome])
      else
        var rest := MoveFilesSpec(s.disk, walk[1..], photoRoot, videoRoot, dryRun);
        FilesResult(rest.disk, [s.outcome] + rest.outcomes)
  }

  /**
   * `move_individual_files`: the loop, then, unless it raised and unless this is
   * a dry run, `rmdir` of the source folder if it is empty. A failing `listdir`
   * or `rmdir` is caught and leaves the folder where it is.
   */
  function MoveIndividualFilesSpec(d: Disk, src: Path, photoRoot: Path, videoRoot: Path, dryRun: bool): FilesResult {
    var r := MoveFilesSpec(d, d.Walk(src), photoRoot, videoRoot, dryRun);
    if !r.Aborted() && !dryRun && !r.disk.RemoveDirFails(src) then FilesResult(r.disk.RemoveDir(src), r.outcomes)
    else r
  }

  method MoveIndividualFiles(fs: FileSystem, src: Path, photoRoot: Path, videoRoot: Path, dryRun: bool)
    returns (outcomes: seq<FileMove>)
    modifies fs
    ensures FilesResult(fs.Snapshot(), outcomes) == MoveIndividualFilesSpec(old(fs.Snapshot()), src, photoRoot, videoRoot, dryRun)
  {
    var walk := fs.Snapshot().Walk(src);
    outcomes := MoveFiles(fs, walk, photoRoot, videoRoot, dryRun);
    if outcomes != [] && outcomes[|outcomes| - 1] == MtimeFailed {
      return;
    }
    if !dryRun && !fs.Snapshot().RemoveDirFails(src) {
      fs.RemoveDir(src);
    }
  }

  /** The loop of `move_individual_files` over a walk taken before the first move. */
  method MoveFiles(fs: FileSystem, walk: seq<Entry>, photoRoot: Path, videoRoot: Path, dryRun: bool)
    returns (outcomes: seq<FileMove>)
    modifies fs
    ensures FilesResult(fs.Snapshot(), outcomes) == MoveFilesSpec(old(fs.Snapshot()), walk, photoRoot, videoRoot, dryRun)
  {
    ghost var d0 := fs.Snapshot();
    outcomes := [];
    var i := 0;
    while i < |walk|
      invariant 0 <= i <= |walk|
      invariant MoveFilesSpec(d0, walk, photoRoot, videoRoot, dryRun)
        == var rest := MoveFilesSpec(fs.Snapshot(), walk[i..], photoRoot, videoRoot, dryRun);
           FilesResult(rest.disk, outcomes + rest.outcomes)
    {
      var e := walk[i];
      assert walk[i..][0] == e && walk[i..][1..] == walk[i + 1..];
      ghost var before := fs.Snapshot();
      var outcome := MoveOneFile(fs, e, photoRoot, videoRoot, dryRun);
      ghost var after := fs.Snapshot();
      if outcome == MtimeFailed {
        assert MoveFilesSpec(before, walk[i..], photoRoot, videoRoot, dryRun) == FilesResult(after, [outcome]) by {
          MoveFilesAbort(before, walk[i..], photoRoot, videoRoot, dryRun, FileStep(after, outcome));
        }
        outcomes := outcomes + [outcome];
        return;
      }
      ghost var rest := MoveFilesSpec(after, walk[i + 1..], photoRoot, videoRoot, dryRun);
      assert MoveFilesSpec(before, walk[i..], photoRoot, videoRoot, dryRun) == FilesResult(rest.disk, [outcome] + rest.outcomes) by {
        MoveFilesUnfold(before, walk[i..], photoRoot, videoRoot, dryRun, FileStep(after, outcome));
      }
      assert (outcomes + [outcome]) + rest.outcomes == outcomes + ([outcome] + rest.outcomes);
      outcomes := outcomes + [outcome];
      i := i + 1;
    }
    assert walk[i..] == [];
  }

  /** The first step of the scatter loop, given its result, when it reads a date. */
  lemma MoveFilesUnfold(d: Disk, walk: seq<Entry>, photoRoot: Path, videoRoot: Path, dryRun: bool, s: FileStep)
    requires walk != [] && s == MoveFileSpec(d, walk[0], photoRoot, videoRoot, dryRun) && s.outcome != MtimeFailed
    ensures MoveFilesSpec(d, walk, photoRoot, videoRoot, dryRun)
      == var rest := MoveFilesSpec(s.disk, walk[1..], photoRoot, videoRoot, dryRun);
         FilesResult(rest.disk, [s.outcome] + rest.outcomes)
  {
  }

  /** The first step of the scatter loop, given its result, when its date cannot be read. */
  lemma MoveFilesAbort(d: Disk, walk: seq<Entry>, photoRoot: Path, videoRoot: Path, dryRun: bool, s: FileStep)
    requires walk != [] && s == MoveFileSpec(d, walk[0], photoRoot, videoRoot, dryRun) && s.outcome == MtimeFailed
    ensures MoveFilesSpec(d, walk, photoRoot, videoRoot, dryRun) == FilesResult(s.disk, [MtimeFailed])
    ensures s.disk == d
  {
  }

  /** The body of the loop in `move_individual_files`. */
  method MoveOneFile(fs: FileSystem, e: Entry, photoRoot: Path, videoRoot: Path, dryRun: bool)
    returns (outcome: FileMove)
    modifies fs
    ensures FileStep(fs.Snapshot(), outcome) == MoveFileSpec(old(fs.Snapshot()), e, photoRoot, videoRoot, dryRun)
  {
    var name := Name(e.path);
    if IsHidden(name) {
      return HiddenFile;
    }
    var k := KindOf(name);
    if k == Other {
      return NotMedia;
    }
    var date := FileDate(k, e.info);
    if date.None? {
      return MtimeFailed;
    }
    var dir := DestDir(if k == Photo then photoRoot else videoRoot, BucketOf(date.value));
    fs.MakeDirs(dir);
    var dest := dir + [name];
    if fs.Snapshot().Exists(dest) {
      return FileExists(dest);
    }
    if dryRun {
      return WouldMoveFile(dest);
    }
    fs.Move(e.path, dest);
    return MovedFile(dest);
  }

  /** One file step keeps the disk valid and every file record; only a real move changes the files. */
  lemma MoveFileKeeps(d: Disk, e: Entry, photoRoot: Path, videoRoot: Path, dryRun: bool)
    requires d.Valid() && e.path != []
    ensures MoveFileSpec(d, e, photoRoot, videoRoot, dryRun).disk.Valid()
    ensures Infos(MoveFileSpec(d, e, photoRoot, videoRoot, dryRun).disk.files) == Infos(d.files)
    ensures !MoveFileSpec(d, e, photoRoot, videoRoot, dryRun).outcome.MovedFile?
      ==> MoveFileSpec(d, e, photoRoot, videoRoot, dryRun).disk.files == d.files
    ensures dryRun ==> !MoveFileSpec(d, e, photoRoot, videoRoot, dryRun).outcome.MovedFile?
  {
    var name := Name(e.path);
    if !IsHidden(name) && KindOf(name) != Other && FileDate(KindOf(name), e.info).Some? {
      var k := KindOf(name);
      var dir := DestDir(if k == Photo then photoRoot else videoRoot, BucketOf(FileDate(k, e.info).value));
      MakeDirsValid(d, dir);
      var d1 := d.MakeDirs(dir);
      var dest := dir + [name];
      if !d1.Exists(dest) && !dryRun {
        DestAncestors(d1, dir, name);
        MoveToFreshPath(d1, e.path, dest);
      }
    }
  }

  /**
   * Each visible media file of the walk is sent to its own dated bucket under the
   * root of its kind, and a file whose destination exists is left where it is;
   * a file whose date cannot be read stops the loop with the disk untouched.
   */
  lemma MoveFileDestination(d: Disk, e: Entry, photoRoot: Path, videoRoot: Path, dryRun: bool)
    requires !IsHidden(Name(e.path)) && KindOf(Name(e.path)) != Other
    ensures var s := MoveFileSpec(d, e, photoRoot, videoRoot, dryRun);
      FileDate(KindOf(Name(e.path)), e.info).None? ==> s == FileStep(d, MtimeFailed)
    ensures var s := MoveFileSpec(d, e, photoRoot, videoRoot, dryRun);
      var date := FileDate(KindOf(Name(e.path)), e.info);
      date.Some? ==>
        var dest := FileDest(photoRoot, videoRoot, KindOf(Name(e.path)), date.value, Name(e.path));
        && (s.outcome == FileExists(dest) || s.outcome == WouldMoveFile(dest) || s.outcome == MovedFile(dest))
        && (s.outcome == FileExists(dest) <==> d.MakeDirs(dest[..|dest| - 1]).Exists(dest))
        && (s.outcome == MovedFile(dest) && d.IsFile(e.path) && !AtOrUnder(dest, e.path) ==> s.disk.IsFile(dest))
  {
    var name := Name(e.path);
    var k := KindOf(name);
    var s := MoveFileSpec(d, e, photoRoot, videoRoot, dryRun);
    if FileDate(k, e.info).Some? {
      var dir := DestDir(if k == Photo then photoRoot else videoRoot, BucketOf(FileDate(k, e.info).value));
      var d1 := d.MakeDirs(dir);
      var dest := dir + [name];
      assert dest[..|dest| - 1] == dir;
      if d1.Exists(dest) {
        assert s == FileStep(d1, FileExists(dest));
      } else if dryRun {
        assert s == FileStep(d1, WouldMoveFile(dest));
      } else {
        assert s == FileStep(d1.Move(e.path, dest), MovedFile(dest));
        if d.IsFile(e.path) && !AtOrUnder(dest, e.path) {
          MoveArrives(d1, e.path, dest);
        }
      }
    }
  }

  /**
   * The scatter loop stops at the first file whose date cannot be read: the
   * i-th outcome is the error exactly when the i-th file's date fails, and a
   * loop that reports fewer files than the walk has ended with that error.
   */
  lemma MoveFilesStops(d: Disk, walk: seq<Entry>, photoRoot: Path, videoRoot: Path, dryRun: bool)
    ensures var r := MoveFilesSpec(d, walk, photoRoot, videoRoot, dryRun);
      && (forall i | 0 <= i < |r.outcomes| :: r.outcomes[i] == MtimeFailed <==> DateFails(walk[i]))
      && (forall i | 0 <= i < |r.outcomes| - 1 :: r.outcomes[i] != MtimeFailed)
      && (|r.outcomes| < |walk| ==> r.Aborted())
  {
    var r := MoveFilesSpec(d, walk, photoRoot, videoRoot, dryRun);
    forall i | 0 <= i < |r.outcomes|
      ensures r.outcomes[i] == MtimeFailed <==> DateFails(walk[i])
      ensures i < |r.outcomes| - 1 ==> r.outcomes[i] != MtimeFailed
    {
      MoveFilesOutcomeAt(d, walk, photoRoot, videoRoot, dryRun, i);
    }
    MoveFilesShort(d, walk, photoRoot, videoRoot, dryRun);
  }

  /** The outcome at position `i` of the scatter loop, by induction on `i`. */
  lemma {:induction false} MoveFilesOutcomeAt(d: Disk, walk: seq<Entry>, photoRoot: Path, videoRoot: Path, dryRun: bool, i: nat)
    requires i < |MoveFilesSpec(d, walk, photoRoot, videoRoot, dryRun).outcomes|
    ensures var r := MoveFilesSpec(d, walk, photoRoot, videoRoot, dryRun);
      && (r.outcomes[i] == MtimeFailed <==> DateFails(walk[i]))
      && (r.outcomes[i] == MtimeFailed ==> i == |r.outcomes| - 1)
    decreases i
  {
    var s := MoveFileSpec(d, walk[0], photoRoot, videoRoot, dryRun);
    if s.outcome == MtimeFailed {
      MoveFileOutcome(d, walk[0], photoRoot, videoRoot, dryRun);
      MoveFilesAbort(d, walk, photoRoot, videoRoot, dryRun, s);
    } else if i == 0 {
      MoveFileOutcome(d, walk[0], photoRoot, videoRoot, dryRun);
      MoveFilesUnfold(d, walk, photoRoot, videoRoot, dryRun, s);
    } else {
      MoveFilesUnfold(d, walk, photoRoot, videoRoot, dryRun, s);
      MoveFilesOutcomeAt(s.disk, walk[1..], photoRoot, videoRoot, dryRun, i - 1);
      assert walk[1..][i - 1] == walk[i];
    }
  }

  /** A scatter loop that reports fewer files than its walk holds ended with the error. */
  lemma {:induction false} MoveFilesShort(d: Disk, walk: seq<Entry>, photoRoot: Path, videoRoot: Path, dryRun: bool)
    ensures var r := MoveFilesSpec(d, walk, photoRoot, videoRoot, dryRun);
      |r.outcomes| < |walk| ==> r.Aborted()
    decreases |walk|
  {
    if walk != [] {
      var s := MoveFileSpec(d, walk[0], photoRoot, videoRoot, dryRun);
      if s.outcome == MtimeFailed {
        MoveFilesAbort(d, walk, photoRoot, videoRoot, dryRun, s);
      } else {
        MoveFilesUnfold(d, walk, photoRoot, videoRoot, dryRun, s);
        MoveFilesShort(s.disk, walk[1..], photoRoot, videoRoot, dryRun);
      }
    }
  }

  /** A step reports the error exactly when its file's date fails. */
  lemma MoveFileOutcome(d: Disk, e: Entry, photoRoot: Path, videoRoot: Path, dryRun: bool)
    ensures MoveFileSpec(d, e, photoRoot, videoRoot, dryRun).outcome == MtimeFailed <==> DateFails(e)
  {
  }

  lemma {:induction false} MoveFilesKeeps(d: Disk, walk: seq<Entry>, photoRoot: Path, videoRoot: Path, dryRun: bool)
    requires d.Valid() && forall e | e in walk :: e.path != []
    ensures MoveFilesSpec(d, walk, photoRoot, videoRoot, dryRun).disk.Valid()
    ensures Infos(MoveFilesSpec(d, walk, photoRoot, videoRoot, dryRun).disk.files) == Infos(d.files)
    ensures dryRun ==> MoveFilesSpec(d, walk, photoRoot, videoRoot, dryRun).disk.files == d.files
    decreases |walk|
  {
    if walk != [] {
      MoveFileKeeps(d, walk[0], photoRoot, videoRoot, dryRun);
      var s := MoveFileSpec(d, walk[0], photoRoot, videoRoot, dryRun);
      if s.outcome != MtimeFailed {
        MoveFilesKeeps(s.disk, walk[1..], photoRoot, videoRoot, dryRun);
      }
    }
  }

  /**
   * Scattering a folder loses, duplicates and overwrites no file, keeps the disk
   * valid, and a dry run leaves every file in place.
   */
  lemma MoveIndividualFilesKeeps(d: Disk, src: Path, photoRoot: Path, videoRoot: Path, dryRun: bool)
    requires d.Valid()
    ensures MoveIndividualFilesSpec(d, src, photoRoot, videoRoot, dryRun).disk.Valid()
    ensures Infos(MoveIndividualFilesSpec(d, src, photoRoot, videoRoot, dryRun).disk.files) == Infos(d.files)
    ensures dryRun ==> MoveIndividualFilesSpec(d, src, photoRoot, videoRoot, dryRun).disk.files == d.files
  {
    MoveFilesKeeps(d, d.Walk(src), photoRoot, videoRoot, dryRun);
    var r := MoveFilesSpec(d, d.Walk(src), photoRoot, videoRoot, dryRun);
    if !r.Aborted() && !dryRun && !r.disk.RemoveDirFails(src) {
      RemoveDirValid(r.disk, src);
    }
  }

  /**
   * The source folder is removed only in a real run that did not raise, only
   * once nothing is left in it, and only when `rmdir` succeeds; a failing
   * `rmdir` changes nothing.
   */
  lemma RemovesOnlyEmptySource(d: Disk, src: Path, photoRoot: Path, videoRoot: Path, dryRun: bool)
    ensures var r := MoveFilesSpec(d, d.Walk(src), photoRoot, videoRoot, dryRun);
      var final := MoveIndividualFilesSpec(d, src, photoRoot, videoRoot, dryRun).disk;
      && ((r.disk.IsDir(src) && !final.IsDir(src))
          <==> (!r.Aborted() && !dryRun && r.disk.IsDir(src) && r.disk.Empty(src) && src !in r.disk.pinned))
      && (src in r.disk.pinned ==> final == r.disk)
  {
  }

  /**
   * A folder whose classification succeeded is scattered without error: the
   * scatter walks the same files, and every date among them can be read.
   */
  lemma ScatterAfterClassify(d: Disk, src: Path, photoRoot: Path, videoRoot: Path, dryRun: bool)
    requires Classify(d.Walk(src)).Some?
    ensures var r := MoveFilesSpec(d, d.Walk(src), photoRoot, videoRoot, dryRun);
      !r.Aborted() && |r.outcomes| == |d.Walk(src)|
  {
    MoveFilesStops(d, d.Walk(src), photoRoot, videoRoot, dryRun);
  }

  // ------------------------------------------------------------ the driver

  /** The parameters of `organize` (the module globals of the script version). */
  datatype Config = Config(source: Path, photoDest: Path, videoDest: Path, dryRun: bool, interactive: bool)

  /** A name of exactly four ASCII digits: an already processed year folder. */
  predicate IsYearName(name: string) {
    |name| == 4 && AllDigits(name)
  }

  /** What `organize` decided for one entry of the source directory. */
  datatype FolderReport =
    | NotDir(name: string)
    | YearFolder(name: string)
    | NoMedia(name: string)
    | InputEnded(name: string)
    | ClassifyFailed(name: string)
    | Handled(name: string, bucket: Bucket, root: Path, photos: nat, videos: nat, action: FolderAction, finalName: string)
  {
    /** The run ends at this entry: input ran out, or reading a date raised. */
    predicate Ends() {
      InputEnded? || ClassifyFailed?
    }
  }

  datatype StepResult = StepResult(disk: Disk, report: FolderReport, lines: seq<string>)

  /** The action for a folder: the operator's, or accept under the folder's own name. */
  function Decide(cfg: Config, name: string, lines: seq<string>): (r: Option<Choice>)
    ensures r.Some? ==> r.value.consumed <= |lines|
  {
    if cfg.interactive then PromptUser(name, lines) else Some(Choice(Accept, name, 0))
  }

  /** One iteration of the loop in `organize`, for the entry `name` of the source directory. */
  function OrganizeStep(d: Disk, cfg: Config, name: string, lines: seq<string>): StepResult {
    var folder := cfg.source + [name];
    if !d.IsDir(folder) then StepResult(d, NotDir(name), lines)
    else if IsYearName(name) then StepResult(d, YearFolder(name), lines)
    else
      match Classify(d.Walk(folder))
      case None => StepResult(d, ClassifyFailed(name), lines)
      case Some(c) => if c.dates == [] then StepResult(d, NoMedia(name), lines) else PlaceFolder(d, cfg, name, c, lines)
  }

  /** The rest of the iteration for a folder with media: the bucket vote, the root, the decision and its effect. */
  function PlaceFolder(d: Disk, cfg: Config, name: string, c: Classification, lines: seq<string>): StepResult
    requires c.dates != []
  {
    var folder := cfg.source + [name];
    var b := ChooseTargetDate(c.dates);
    var root := if c.photos >= c.videos then cfg.photoDest else cfg.videoDest;
    match Decide(cfg, name, lines)
    case None => StepResult(d, InputEnded(name), [])
    case Some(ch) =>
      var report := Handled(name, b, root, c.photos, c.videos, ch.action, ch.name);
      StepResult(ApplyChoice(d, cfg, folder, root, b, ch), report, lines[ch.consumed..])
  }

  /** Carries out the decision for a folder: skip, scatter its files, or move it whole (under a new name for a rename). */
  function ApplyChoice(d: Disk, cfg: Config, folder: Path, root: Path, b: Bucket, ch: Choice): Disk {
    if ch.action == Skip then d
    else if ch.action == Ungroup then MoveIndividualFilesSpec(d, folder, cfg.photoDest, cfg.videoDest, cfg.dryRun).disk
    else MoveEntireFolderSpec(d, folder, root, b, ch.name, cfg.dryRun).disk
  }

  datatype RunResult = RunResult(disk: Disk, reports: seq<FolderReport>)

  /** The loop of `organize` over the entries of the source directory; it stops when input ends or a date cannot be read. */
  function OrganizeRun(d: Disk, cfg: Config, names: seq<string>, lines: seq<string>): (r: RunResult)
    ensures |r.reports| <= |names|
    decreases |names|
  {
    if names == [] then RunResult(d, [])
    else
      var s := OrganizeStep(d, cfg, names[0], lines);
      if s.report.Ends() then RunResult(s.disk, [s.report])
      else
        var rest := OrganizeRun(s.disk, cfg, names[1..], s.lines);
        RunResult(rest.disk, [s.report] + rest.reports)
  }

  /** The first step of the loop of `organize`, given its result, when it does not end the run. */
  lemma OrganizeRunUnfold(d: Disk, cfg: Config, names: seq<string>, lines: seq<string>, s: StepResult)
    requires names != [] && s == OrganizeStep(d, cfg, names[0], lines) && !s.report.Ends()
    ensures OrganizeRun(d, cfg, names, lines)
      == var rest := OrganizeRun(s.disk, cfg, names[1..], s.lines);
         RunResult(rest.disk, [s.report] + rest.reports)
  {
  }

  /** The first step of the loop of `organize`, given its result, when it ends the run. */
  lemma OrganizeRunEnds(d: Disk, cfg: Config, names: seq<string>, lines: seq<string>, s: StepResult)
    requires names != [] && s == OrganizeStep(d, cfg, names[0], lines) && s.report.Ends()
    ensures OrganizeRun(d, cfg, names, lines) == RunResult(s.disk, [s.report])
  {
  }

  /** `organize`, given the names `os.scandir(source)` lists and the operator's input lines. */
  function OrganizeSpec(d: Disk, cfg: Config, names: seq<string>, lines: seq<string>): RunResult {
    if !d.Exists(cfg.source) then RunResult(d, []) else OrganizeRun(d, cfg, names, lines)
  }

  method Organize(fs: FileSystem, cfg: Config, names: seq<string>, lines: seq<string>)
    returns (reports: seq<FolderReport>)
    modifies fs
    ensures RunResult(fs.Snapshot(), reports) == OrganizeSpec(old(fs.Snapshot()), cfg, names, lines)
  {
    reports := [];
    if !fs.Snapshot().Exists(cfg.source) {
      return;
    }
    ghost var d0 := fs.Snapshot();
    var input := lines;
    var i := 0;
    while i < |names|
      invariant 0 <= i <= |names|
      invariant OrganizeRun(d0, cfg, names, lines)
        == var rest := OrganizeRun(fs.Snapshot(), cfg, names[i..], input);
           RunResult(rest.disk, reports + rest.reports)
    {
      var name := names[i];
      assert names[i..][0] == name && names[i..][1..] == names[i + 1..];
      ghost var before := fs.Snapshot();
      var report, remaining := OrganizeOne(fs, cfg, name, input);
      assert StepResult(fs.Snapshot(), report, remaining) == OrganizeStep(before, cfg, name, input);
      reports := reports + [report];
      if report.InputEnded? || report.ClassifyFailed? {
        return;
      }
      input := remaining;
      i := i + 1;
    }
    assert names[i..] == [];
  }

  /** The body of the loop in `organize`. */
  method OrganizeOne(fs: FileSystem, cfg: Config, name: string, lines: seq<string>)
    returns (report: FolderReport, rest: seq<string>)
    modifies fs
    ensures StepResult(fs.Snapshot(), report, rest) == OrganizeStep(old(fs.Snapshot()), cfg, name, lines)
  {
    var folder := cfg.source + [name];
    if !fs.Snapshot().IsDir(folder) {
      return NotDir(name), lines;
    }
    if IsYearName(name) {
      return YearFolder(name), lines;
    }
    var dates, photos, videos, failed := ClassifyFolder(fs, folder);
    if failed {
      return ClassifyFailed(name), lines;
    }
    if dates == [] {
      return NoMedia(name), lines;
    }
    var b := ChooseTargetDate(dates);
    var root := if photos >= videos then cfg.photoDest else cfg.videoDest;
    var choice := Decide(cfg, name, lines);
    if choice.None? {
      return InputEnded(name), [];
    }
    var ch := choice.value;
    report := Handled(name, b, root, photos, videos, ch.action, ch.name);
    rest := lines[ch.consumed..];
    if ch.action == Skip {
      return;
    } else if ch.action == Ungroup {
      var _ := MoveIndividualFiles(fs, folder, cfg.photoDest, cfg.videoDest, cfg.dryRun);
    } else {
      var _ := MoveEntireFolder(fs, folder, root, b, ch.name, cfg.dryRun);
    }
  }

  // ------------------------------------------------------------ properties of a run

  lemma ApplyChoiceKeeps(d: Disk, cfg: Config, folder: Path, root: Path, b: Bucket, ch: Choice)
    requires d.Valid() && folder != []
    ensures ApplyChoice(d, cfg, folder, root, b, ch).Valid()
    ensures Infos(ApplyChoice(d, cfg, folder, root, b, ch).files) == Infos(d.files)
    ensures cfg.dryRun ==> ApplyChoice(d, cfg, folder, root, b, ch).files == d.files
  {
    if ch.action == Ungroup {
      MoveIndividualFilesKeeps(d, folder, cfg.photoDest, cfg.videoDest, cfg.dryRun);
    } else if ch.action != Skip {
      MoveEntireFolderKeeps(d, folder, root, b, ch.name, cfg.dryRun);
    }
  }

  lemma OrganizeStepKeeps(d: Disk, cfg: Config, name: string, lines: seq<string>)
    requires d.Valid()
    ensures OrganizeStep(d, cfg, name, lines).disk.Valid()
    ensures Infos(OrganizeStep(d, cfg, name, lines).disk.files) == Infos(d.files)
    ensures cfg.dryRun ==> OrganizeStep(d, cfg, name, lines).disk.files == d.files
  {
    var d2 := OrganizeStep(d, cfg, name, lines).disk;
    var folder := cfg.source + [name];
    if d.IsDir(folder) && !IsYearName(name) && Classify(d.Walk(folder)).Some? && Classify(d.Walk(folder)).value.dates != []
      && Decide(cfg, name, lines).Some?
    {
      var c := Classify(d.Walk(folder)).value;
      var b := ChooseTargetDate(c.dates);
      var root := if c.photos >= c.videos then cfg.photoDest else cfg.videoDest;
      var ch := Decide(cfg, name, lines).value;
      assert d2 == ApplyChoice(d, cfg, folder, root, b, ch);
      ApplyChoiceKeeps(d, cfg, folder, root, b, ch);
    } else {
      assert d2 == d;
    }
  }

  lemma {:induction false} OrganizeRunKeeps(d: Disk, cfg: Config, names: seq<string>, lines: seq<string>)
    requires d.Valid()
    ensures OrganizeRun(d, cfg, names, lines).disk.Valid()
    ensures Infos(OrganizeRun(d, cfg, names, lines).disk.files) == Infos(d.files)
    ensures cfg.dryRun ==> OrganizeRun(d, cfg, names, lines).disk.files == d.files
    decreases |names|
  {
    if names != [] {
      OrganizeStepKeeps(d, cfg, names[0], lines);
      var s := OrganizeStep(d, cfg, names[0], lines);
      if !s.report.Ends() {
        OrganizeRunKeeps(s.disk, cfg, names[1..], s.lines);
      }
    }
  }

  /**
   * On a valid disk, `organize` loses, duplicates and overwrites no file: the list
   * of file records afterwards is the list before. A dry run leaves every file
   * where it was.
   */
  lemma OrganizeKeepsFiles(d: Disk, cfg: Config, names: seq<string>, lines: seq<string>)
    requires d.Valid()
    ensures OrganizeSpec(d, cfg, names, lines).disk.Valid()
    ensures Infos(OrganizeSpec(d, cfg, names, lines).disk.files) == Infos(d.files)
    ensures cfg.dryRun ==> OrganizeSpec(d, cfg, names, lines).disk.files == d.files
  {
    if d.Exists(cfg.source) {
      OrganizeRunKeeps(d, cfg, names, lines);
    }
  }

  /**
   * The decision for one entry: non-directories and four-digit names are passed
   * over before any classification; a folder holding a media file whose date
   * cannot be read ends the run; a folder without media is skipped; otherwise
   * the root is the photo root iff photos >= videos, and without prompting the
   * action is accept under the folder's own name.
   */
  lemma OrganizeStepDecision(d: Disk, cfg: Config, name: string, lines: seq<string>)
    ensures var r := OrganizeStep(d, cfg, name, lines).report;
      && r.name == name
      && (!d.IsDir(cfg.source + [name]) <==> r.NotDir?)
      && (d.IsDir(cfg.source + [name]) && IsYearName(name) <==> r.YearFolder?)
      && (r.ClassifyFailed? <==>
            d.IsDir(cfg.source + [name]) && !IsYearName(name) && Classify(d.Walk(cfg.source + [name])).None?)
      && (r.NoMedia? <==>
            d.IsDir(cfg.source + [name]) && !IsYearName(name) && Classify(d.Walk(cfg.source + [name])) == Some(Classification([], 0, 0)))
      && (r.Handled? ==> r.root == if r.photos >= r.videos then cfg.photoDest else cfg.videoDest)
      && (r.Handled? ==> r.photos + r.videos > 0)
      && (!cfg.interactive ==> !r.InputEnded? && (r.Handled? ==> r.action == Accept && r.finalName == name))
  {
    var folder := cfg.source + [name];
    if d.IsDir(folder) && !IsYearName(name) {
      ClassifyCounts(d.Walk(folder));
      var c := Classify(d.Walk(folder));
      if c.Some? && c.value.dates != [] {
        assert OrganizeStep(d, cfg, name, lines) == PlaceFolder(d, cfg, name, c.value, lines);
        PlaceFolderReport(d, cfg, name, c.value, lines);
      }
    }
  }

  /**
   * For a folder with media, the report carries the classification's counts and
   * the root they choose; without prompting the folder is accepted under its own
   * name, and with prompting only the end of input stops it being handled.
   */
  lemma PlaceFolderReport(d: Disk, cfg: Config, name: string, c: Classification, lines: seq<string>)
    requires c.dates != [] && |c.dates| == c.photos + c.videos
    ensures var r := PlaceFolder(d, cfg, name, c, lines).report;
      && r.name == name
      && (r.Handled? <==> Decide(cfg, name, lines).Some?)
      && (r.InputEnded? <==> Decide(cfg, name, lines).None?)
      && (r.Handled? ==> r.photos == c.photos && r.videos == c.videos && r.photos + r.videos > 0)
      && (r.Handled? ==> r.root == if r.photos >= r.videos then cfg.photoDest else cfg.videoDest)
      && (!cfg.interactive ==> r.Handled? && r.action == Accept && r.finalName == name)
  {
  }

  /**
   * A handled folder goes to the mover its action names: accept and rename move
   * the whole folder under the report's root and final name, ungroup scatters
   * its files over both roots, and skip leaves the disk alone.
   */
  lemma OrganizeStepDispatch(d: Disk, cfg: Config, name: string, lines: seq<string>)
    ensures var s := OrganizeStep(d, cfg, name, lines);
      var r := s.report;
      var folder := cfg.source + [name];
      && (r.Handled? && (r.action == Accept || r.action == Rename) ==>
            s.disk == MoveEntireFolderSpec(d, folder, r.root, r.bucket, r.finalName, cfg.dryRun).disk)
      && (r.Handled? && r.action == Ungroup ==>
            s.disk == MoveIndividualFilesSpec(d, folder, cfg.photoDest, cfg.videoDest, cfg.dryRun).disk)
      && (r.Handled? && r.action == Skip ==> s.disk == d)
  {
    var folder := cfg.source + [name];
    if d.IsDir(folder) && !IsYearName(name) && Classify(d.Walk(folder)).Some? && Classify(d.Walk(folder)).value.dates != [] {
      var c := Classify(d.Walk(folder)).value;
      assert OrganizeStep(d, cfg, name, lines) == PlaceFolder(d, cfg, name, c, lines);
      if Decide(cfg, name, lines).Some? {
        var ch := Decide(cfg, name, lines).value;
        var root := if c.photos >= c.videos then cfg.photoDest else cfg.videoDest;
        assert PlaceFolder(d, cfg, name, c, lines).disk == ApplyChoice(d, cfg, folder, root, ChooseTargetDate(c.dates), ch);
      }
    }
  }

  /** A step that does not hand the folder to a mover leaves the disk exactly as it was. */
  lemma OrganizeStepUntouched(d: Disk, cfg: Config, name: string, lines: seq<string>)
    ensures var s := OrganizeStep(d, cfg, name, lines);
      !(s.report.Handled? && s.report.action != Skip) ==> s.disk == d
  {
  }

  /** Each report is about the entry at the same position, met with the disk and input left by those before it. */
  lemma OrganizeRunReports(d: Disk, cfg: Config, names: seq<string>, lines: seq<string>)
    ensures var r := OrganizeRun(d, cfg, names, lines).reports;
      forall i | 0 <= i < |r| :: r[i] == OrganizeStep(OrganizeRunDiskBefore(d, cfg, names, lines, i), cfg, names[i], OrganizeRunLinesBefore(d, cfg, names, lines, i)).report
  {
    var r := OrganizeRun(d, cfg, names, lines).reports;
    forall i | 0 <= i < |r|
      ensures r[i] == OrganizeStep(OrganizeRunDiskBefore(d, cfg, names, lines, i), cfg, names[i], OrganizeRunLinesBefore(d, cfg, names, lines, i)).report
    {
      OrganizeRunReportAt(d, cfg, names, lines, i);
      OrganizeStepAtBefore(d, cfg, names, lines, i);
    }
  }

  /** The step the loop of `organize` takes at entry `i`. */
  function OrganizeStepAt(d: Disk, cfg: Config, names: seq<string>, lines: seq<string>, i: nat): StepResult
    requires i < |names|
    decreases i
  {
    var s := OrganizeStep(d, cfg, names[0], lines);
    if i == 0 then s else OrganizeStepAt(s.disk, cfg, names[1..], s.lines, i - 1)
  }

  /** The report at position `i` is that of the step at entry `i`, by induction on `i`. */
  lemma {:induction false} OrganizeRunReportAt(d: Disk, cfg: Config, names: seq<string>, lines: seq<string>, i: nat)
    requires i < |OrganizeRun(d, cfg, names, lines).reports|
    ensures i < |names|
    ensures OrganizeRun(d, cfg, names, lines).reports[i] == OrganizeStepAt(d, cfg, names, lines, i).report
    decreases i
  {
    var s := OrganizeStep(d, cfg, names[0], lines);
    if s.report.Ends() {
      OrganizeRunEnds(d, cfg, names, lines, s);
    } else if i == 0 {
      OrganizeRunUnfold(d, cfg, names, lines, s);
    } else {
      OrganizeRunUnfold(d, cfg, names, lines, s);
      OrganizeRunReportAt(s.disk, cfg, names[1..], s.lines, i - 1);
    }
  }

  /** The step at entry `i` is the step for `names[i]` on the disk and input left by the steps before it. */
  lemma {:induction false} OrganizeStepAtBefore(d: Disk, cfg: Config, names: seq<string>, lines: seq<string>, i: nat)
    requires i < |names|
    ensures OrganizeStepAt(d, cfg, names, lines, i)
      == OrganizeStep(OrganizeRunDiskBefore(d, cfg, names, lines, i), cfg, names[i], OrganizeRunLinesBefore(d, cfg, names, lines, i))
    decreases i
  {
    if i > 0 {
      var s := OrganizeStep(d, cfg, names[0], lines);
      OrganizeStepAtBefore(s.disk, cfg, names[1..], s.lines, i - 1);
      assert names[1..][i - 1] == names[i];
      BeforeShift(d, cfg, names, lines, i, s);
    }
  }

  /** Reaching entry `i` is reaching entry `i - 1` of the rest after the first step. */
  lemma BeforeShift(d: Disk, cfg: Config, names: seq<string>, lines: seq<string>, i: nat, s: StepResult)
    requires names != [] && i > 0 && s == OrganizeStep(d, cfg, names[0], lines)
    ensures OrganizeRunDiskBefore(d, cfg, names, lines, i) == OrganizeRunDiskBefore(s.disk, cfg, names[1..], s.lines, i - 1)
    ensures OrganizeRunLinesBefore(d, cfg, names, lines, i) == OrganizeRunLinesBefore(s.disk, cfg, names[1..], s.lines, i - 1)
  {
  }

  /**
   * Running out of input, or a date that cannot be read, ends the run at that
   * entry, and only the last report can say so.
   */
  lemma {:induction false} OrganizeRunStops(d: Disk, cfg: Config, names: seq<string>, lines: seq<string>)
    ensures var r := OrganizeRun(d, cfg, names, lines).reports;
      && (forall i | 0 <= i < |r| - 1 :: !r[i].Ends())
      && (|r| < |names| ==> r != [] && r[|r| - 1].Ends())
    decreases |names|
  {
    if names != [] {
      var s := OrganizeStep(d, cfg, names[0], lines);
      if !s.report.Ends() {
        OrganizeRunStops(s.disk, cfg, names[1..], s.lines);
      }
    }
  }

  /** The disk the loop of `organize` sees when it reaches entry `i`. */
  function OrganizeRunDiskBefore(d: Disk, cfg: Config, names: seq<string>, lines: seq<string>, i: nat): Disk
    decreases i
  {
    if i == 0 || names == [] then d
    else
      var s := OrganizeStep(d, cfg, names[0], lines);
      OrganizeRunDiskBefore(s.disk, cfg, names[1..], s.lines, i - 1)
  }

  /** The input lines left when the loop of `organize` reaches entry `i`. */
  function OrganizeRunLinesBefore(d: Disk, cfg: Config, names: seq<string>, lines: seq<string>, i: nat): seq<string>
    decreases i
  {
    if i == 0 || names == [] then lines
    else
      var s := OrganizeStep(d, cfg, names[0], lines);
      OrganizeRunLinesBefore(s.disk, cfg, names[1..], s.lines, i - 1)
  }

  /**
   * Without prompting, every entry gets a report unless a date cannot be read,
   * and every handled folder is accepted under its own name.
   */
  lemma {:induction false} NonInteractiveAccepts(d: Disk, cfg: Config, names: seq<string>, lines: seq<string>)
    requires !cfg.interactive
    ensures var r := OrganizeRun(d, cfg, names, lines).reports;
      && (|r| == |names| || (r != [] && r[|r| - 1].ClassifyFailed?))
      && forall i | 0 <= i < |r| :: r[i].name == names[i] && (r[i].Handled? ==> r[i].action == Accept && r[i].finalName == names[i])
    decreases |names|
  {
    if names != [] {
      OrganizeStepDecision(d, cfg, names[0], lines);
      var s := OrganizeStep(d, cfg, names[0], lines);
      if !s.report.ClassifyFailed? {
        NonInteractiveAccepts(s.disk, cfg, names[1..], s.lines);
      }
    }
  }
}

/**
 * The health check: every visible photo or video is judged against the size
 * and resolution thresholds of its era; the files that fail are grouped by the
 * kind of problem and, unless this is a dry run, deleted (after asking, in
 * interactive mode).
 */
module HealthCheck {
  import opened Wrappers
  import opened Text
  import opened Dates
  import opened Constants
  import opened Media
  import opened FileSystem

  // ------------------------------------------------------------ thresholds

  /** The year assumed for a file whose date is unknown. */
  const Legacy: int := 1990

  function EraYear(date: Option<DateTime>): int {
    if date.Some? then date.value.year else Legacy
  }

  /** The photo table iff the lower-cased extension is a photo extension, else the video table. */
  function ThresholdTable(ext: string): map<int, ThresholdConfig> {
    if Lower(ext) in PhotoExt then PhotoThresholds else VideoThresholds
  }

  function SortedBoundaries(ext: string): seq<int> {
    if Lower(ext) in PhotoExt then PhotoBoundaries else VideoBoundaries
  }

  /** The loop over the sorted boundaries: the index of the first one at or above `year`. */
  function SearchBoundary(bounds: seq<int>, year: int): (r: Option<nat>)
    ensures r.Some? ==> r.value < |bounds| && year <= bounds[r.value]
    ensures r.Some? ==> forall j | 0 <= j < r.value :: bounds[j] < year
    ensures r.None? ==> forall j | 0 <= j < |bounds| :: bounds[j] < year
  {
    if bounds == [] then None
    else if year <= bounds[0] then Some(0)
    else match SearchBoundary(bounds[1..], year)
      case None => None
      case Some(i) => Some(i + 1)
  }

  /**
   * `get_size_threshold`: the configuration of the first boundary at or above
   * the file's year. The fallback after the loop is unreachable, because the
   * last boundary, `sys.maxsize`, is above every year a date can hold.
   */
  function GetSizeThreshold(date: Option<DateTime>, ext: string): (r: ThresholdConfig)
    ensures r in ThresholdTable(ext).Values
  {
    var year := EraYear(date);
    var bounds := SortedBoundaries(ext);
    BoundariesAreSortedKeys();
    var i := SearchBoundary(bounds, year);
    assert i.Some?;
    assert bounds[i.value] in bounds;
    ThresholdTable(ext)[bounds[i.value]]
  }

  /**
   * The threshold chosen is the one of the smallest boundary that is at least
   * the file's year, taken from the photo table exactly for photo extensions.
   */
  lemma SizeThresholdIsEra(date: Option<DateTime>, ext: string)
    ensures var table := ThresholdTable(ext);
      var year := EraYear(date);
      exists b | b in table :: && year <= b
                              && GetSizeThreshold(date, ext) == table[b]
                              && forall k | k in table && year <= k :: b <= k
  {
    var table := ThresholdTable(ext);
    var year := EraYear(date);
    var bounds := SortedBoundaries(ext);
    BoundariesAreSortedKeys();
    var i := SearchBoundary(bounds, year).value;
    FirstBoundaryIsLeast(bounds, table, year);
    assert bounds[i] in table && GetSizeThreshold(date, ext) == table[bounds[i]];
  }

  /** On increasing boundaries that are exactly a table's keys, the search finds the least key at or above `year`. */
  lemma FirstBoundaryIsLeast(bounds: seq<int>, table: map<int, ThresholdConfig>, year: int)
    requires StrictlyIncreasing(bounds) && (set k | k in bounds) == table.Keys
    requires SearchBoundary(bounds, year).Some?
    ensures var b := bounds[SearchBoundary(bounds, year).value];
      b in table && year <= b && forall k | k in table && year <= k :: b <= k
  {
    var i := SearchBoundary(bounds, year).value;
    assert bounds[i] in bounds;
    forall k | k in table && year <= k ensures bounds[i] <= k {
      assert k in bounds;
      var j :| 0 <= j < |bounds| && bounds[j] == k;
      assert i <= j;
    }
  }

  /** Without a date the year 1990 is assumed, which falls in the first era of each table. */
  lemma UndatedIsLegacy(ext: string)
    ensures GetSizeThreshold(None, ext) == (if Lower(ext) in PhotoExt then PhotoThresholds[1995] else VideoThresholds[1995])
  {
  }

  // ------------------------------------------------------------ judging one file

  /**
   * `get_file_date`: a photo's EXIF capture date, otherwise its modification
   * time, or nothing when that cannot be read.
   */
  function FileDate(name: string, info: FileInfo): Option<DateTime> {
    if KindOf(name) == Photo && info.exif.Some? then info.exif
    else if info.statError.Some? then None
    else Some(info.mtime)
  }

  /** The verdict on one file and the text that describes its problem. */
  datatype Health = Health(healthy: bool, text: string)

  const ZeroByte: string := "Zero-byte file (ghost file)"

  function AccessIssue(error: string): string {
    "Cannot access file: " + error
  }

  function SmallIssue(size: nat, t: ThresholdConfig): string {
    "Suspiciously small file (" + Decimal(size) + " bytes , " + t.eraLabel + " threshold: " + Decimal(t.minBytes) + " bytes)"
  }

  function LowResolutionIssue(width: nat, height: nat, t: ThresholdConfig): string {
    "Suspiciously low resolution (" + Decimal(width) + "x" + Decimal(height) + " pixels, " + t.eraLabel
      + " threshold: " + Decimal(t.minWidth) + "x" + Decimal(t.minHeight) + " pixels)"
  }

  function CorruptIssue(reason: string): string {
    "Corrupted image: " + reason
  }

  /** A photo that decodes at no less than the era's width and height. */
  predicate SharpEnough(image: ImageProbe, t: ThresholdConfig) {
    image.Decoded? && image.width >= t.minWidth && image.height >= t.minHeight
  }

  /**
   * `check_file_health`: an unreadable size fails first, then an empty file
   * whatever its extension, then a photo or video below the era's size, then a
   * photo that does not decode or is below the era's resolution.
   */
  function CheckFileHealth(name: string, info: FileInfo): Health {
    var ext := SplitExt(Lower(name));
    if info.statError.Some? then Health(false, AccessIssue(info.statError.value))
    else if info.size == 0 then Health(false, ZeroByte)
    else
      var t := GetSizeThreshold(FileDate(name, info), ext);
      if (ext in PhotoExt || ext in VideoExt) && info.size < t.minBytes then Health(false, SmallIssue(info.size, t))
      else if ext in PhotoExt then
        match info.image
        case Unreadable(reason) => Health(false, CorruptIssue(reason))
        case Decoded(w, h) =>
          if w < t.minWidth || h < t.minHeight then Health(false, LowResolutionIssue(w, h, t))
          else Health(true, "OK")
      else Health(true, "OK")
  }

  /**
   * A file is healthy iff its size can be read, it is not empty, a photo or
   * video reaches its era's size, and a photo decodes at its era's resolution;
   * the first failing check names the problem.
   */
  lemma CheckFileHealthVerdict(name: string, info: FileInfo)
    ensures var r := CheckFileHealth(name, info);
      var ext := SplitExt(Lower(name));
      var t := GetSizeThreshold(FileDate(name, info), ext);
      && (r.healthy <==> && info.statError.None? && info.size > 0
                         && (ext in PhotoExt || ext in VideoExt ==> info.size >= t.minBytes)
                         && (ext in PhotoExt ==> SharpEnough(info.image, t)))
      && (r.healthy ==> r.text == "OK")
      && (info.statError.Some? ==> r.text == AccessIssue(info.statError.value))
      && (info.statError.None? && info.size == 0 ==> r.text == ZeroByte)
      && ((info.statError.None? && info.size > 0 && (ext in PhotoExt || ext in VideoExt) && info.size < t.minBytes)
          ==> r.text == SmallIssue(info.size, t))
  {
  }

  // ------------------------------------------------------------ scanning

  datatype Issue = Issue(path: Path, text: string)

  datatype Scan = Scan(issues: seq<Issue>, healthy: nat, total: nat)

  /** One file of the scan: hidden and non-media files are passed over, every other file is judged. */
  function ScanStep(s: Scan, e: Entry): Scan {
    var name := Name(e.path);
    if IsHidden(name) || !IsMedia(name) then s
    else
      var h := CheckFileHealth(name, e.info);
      if h.healthy then s.(healthy := s.healthy + 1, total := s.total + 1)
      else s.(issues := s.issues + [Issue(e.path, h.text)], total := s.total + 1)
  }

  /** The scan loop over the files of the walk, in walk order. */
  function ScanSpec(es: seq<Entry>): Scan {
    if es == [] then Scan([], 0, 0)
    else ScanStep(ScanSpec(es[..|es| - 1]), es[|es| - 1])
  }

  lemma ScanSpecPrefix(es: seq<Entry>, i: nat)
    requires i < |es|
    ensures ScanSpec(es[..i + 1]) == ScanStep(ScanSpec(es[..i]), es[i])
  {
    assert es[..i + 1][..i] == es[..i];
  }

  /** Scanning reads the disk and changes nothing. */
  method ScanFiles(es: seq<Entry>) returns (issues: seq<Issue>, healthy: nat, total: nat)
    ensures Scan(issues, healthy, total) == ScanSpec(es)
  {
    issues, healthy, total := [], 0, 0;
    var i := 0;
    while i < |es|
      invariant 0 <= i <= |es|
      invariant Scan(issues, healthy, total) == ScanSpec(es[..i])
    {
      ScanSpecPrefix(es, i);
      ghost var before := Scan(issues, healthy, total);
      var e := es[i];
      var name := Name(e.path);
      if !IsHidden(name) && IsMedia(name) {
        total := total + 1;
        var h := CheckFileHealth(name, e.info);
        if !h.healthy {
          issues := issues + [Issue(e.path, h.text)];
        } else {
          healthy := healthy + 1;
        }
      }
      assert Scan(issues, healthy, total) == ScanStep(before, e);
      i := i + 1;
    }
    assert es[..i] == es;
  }

  /** Exactly the visible media files are scanned; each one is either healthy or reported once. */
  lemma {:induction false} ScanTotals(es: seq<Entry>)
    ensures var s := ScanSpec(es);
      && s.total == s.healthy + |s.issues|
      && s.total == |MediaIn(Paths(es))|
  {
    if es != [] {
      var pre := es[..|es| - 1];
      ScanTotals(pre);
      assert Paths(es)[..|es| - 1] == Paths(pre);
    }
  }

  /** Every issue reported is the failing verdict of a visible media file of the walk. */
  lemma {:induction false} ScanIssuesFromWalk(es: seq<Entry>)
    ensures forall iss | iss in ScanSpec(es).issues ::
      exists e | e in es :: && e.path == iss.path && !IsHidden(Name(e.path)) && IsMedia(Name(e.path))
                           && !CheckFileHealth(Name(e.path), e.info).healthy
                           && iss.text == CheckFileHealth(Name(e.path), e.info).text
  {
    if es != [] {
      var pre := es[..|es| - 1];
      var last := es[|es| - 1];
      ScanIssuesFromWalk(pre);
      assert last in es;
      forall e | e in pre ensures e in es {
      }
    }
  }

  // ------------------------------------------------------------ grouping

  /** An issue's group: the text before its first ":", or the whole text. */
  function GroupKey(text: string): (k: string)
    ensures ':' !in k
    ensures |k| <= |text| && k == text[..|k|]
  {
    match IndexOf(text, ':')
    case None => text
    case Some(i) => text[..i]
  }

  /** The group keys in order of first appearance, as the insertion order of the dict. */
  function GroupKeys(issues: seq<Issue>): seq<string> {
    if issues == [] then []
    else
      var keys := GroupKeys(issues[..|issues| - 1]);
      var k := GroupKey(issues[|issues| - 1].text);
      if k in keys then keys else keys + [k]
  }

  /** The issues of one group, in their original order. */
  function WithKey(issues: seq<Issue>, k: string): seq<Issue> {
    if issues == [] then []
    else
      WithKey(issues[..|issues| - 1], k)
        + if GroupKey(issues[|issues| - 1].text) == k then [issues[|issues| - 1]] else []
  }

  predicate Distinct(keys: seq<string>) {
    forall i, j | 0 <= i < j < |keys| :: keys[i] != keys[j]
  }

  /** The keys are distinct and are exactly the keys of the issues; a key without issues has an empty group. */
  lemma {:induction false} GroupKeysExact(issues: seq<Issue>)
    ensures Distinct(GroupKeys(issues))
    ensures forall k :: k in GroupKeys(issues) <==> WithKey(issues, k) != []
  {
    if issues != [] {
      var pre := issues[..|issues| - 1];
      GroupKeysExact(pre);
    }
  }

  /** `keys` lists the groups of `issues` in order of first appearance, and `groups` maps each to its issues. */
  ghost predicate Grouped(issues: seq<Issue>, keys: seq<string>, groups: map<string, seq<Issue>>) {
    && keys == GroupKeys(issues)
    && (forall k :: k in groups <==> k in keys)
    && (forall k | k in groups :: groups[k] == WithKey(issues, k))
  }

  /** `issue_groups`: a dictionary from key to group together with its insertion order. */
  method GroupIssues(issues: seq<Issue>) returns (keys: seq<string>, groups: map<string, seq<Issue>>)
    ensures keys == GroupKeys(issues)
    ensures forall k :: k in groups <==> k in keys
    ensures forall k | k in groups :: groups[k] == WithKey(issues, k)
  {
    keys, groups := [], map[];
    var i := 0;
    while i < |issues|
      invariant 0 <= i <= |issues|
      invariant Grouped(issues[..i], keys, groups)
    {
      var k := GroupKey(issues[i].text);
      GroupStep(issues, i, keys, groups);
      if k !in groups {
        keys := keys + [k];
        groups := groups[k := [issues[i]]];
      } else {
        groups := groups[k := groups[k] + [issues[i]]];
      }
      i := i + 1;
    }
    assert issues[..i] == issues;
  }

  /** Grouping one more issue: its key is appended at its first appearance and the issue joins that key's group. */
  lemma GroupStep(issues: seq<Issue>, i: nat, keys: seq<string>, groups: map<string, seq<Issue>>)
    requires i < |issues| && Grouped(issues[..i], keys, groups)
    ensures var k := GroupKey(issues[i].text);
      if k in groups then Grouped(issues[..i + 1], keys, groups[k := groups[k] + [issues[i]]])
      else Grouped(issues[..i + 1], keys + [k], groups[k := [issues[i]]])
  {
    var k := GroupKey(issues[i].text);
    assert issues[..i + 1][..i] == issues[..i];
    assert k !in groups ==> WithKey(issues[..i], k) == [] by {
      GroupKeysExact(issues[..i]);
    }
    var groups' := if k in groups then groups[k := groups[k] + [issues[i]]] else groups[k := [issues[i]]];
    forall x | x in groups' ensures groups'[x] == WithKey(issues[..i + 1], x) {
      WithKeyStep(issues, i, x);
    }
  }

  /** One more issue joins the group of its own key and no other. */
  lemma WithKeyStep(issues: seq<Issue>, i: nat, k: string)
    requires i < |issues|
    ensures WithKey(issues[..i + 1], k) == WithKey(issues[..i], k) + if GroupKey(issues[i].text) == k then [issues[i]] else []
  {
    assert issues[..i + 1][..i] == issues[..i];
  }

  /** The sizes of the groups of `keys`, added up. */
  function GroupSizes(keys: seq<string>, issues: seq<Issue>): nat {
    if keys == [] then 0
    else GroupSizes(keys[..|keys| - 1], issues) + |WithKey(issues, keys[|keys| - 1])|
  }

  lemma {:induction false} GroupSizesSnoc(keys: seq<string>, issues: seq<Issue>, x: Issue)
    requires Distinct(keys)
    ensures GroupSizes(keys, issues + [x]) == GroupSizes(keys, issues) + if GroupKey(x.text) in keys then 1 else 0
  {
    if keys != [] {
      var pre := keys[..|keys| - 1];
      GroupSizesSnoc(pre, issues, x);
      assert (issues + [x])[..|issues|] == issues;
      assert GroupKey(x.text) in keys <==> GroupKey(x.text) in pre || GroupKey(x.text) == keys[|keys| - 1];
    }
  }

  /** Every issue lands in exactly one group: the group sizes add up to the number of issues. */
  lemma {:induction false} GroupsPartitionIssues(issues: seq<Issue>)
    ensures GroupSizes(GroupKeys(issues), issues) == |issues|
  {
    if issues != [] {
      var pre := issues[..|issues| - 1];
      var x := issues[|issues| - 1];
      var keys := GroupKeys(pre);
      assert issues == pre + [x];
      GroupsPartitionIssues(pre);
      GroupKeysExact(pre);
      GroupSizesSnoc(keys, pre, x);
      var k := GroupKey(x.text);
      if k !in keys {
        assert (keys + [k])[..|keys|] == keys;
        assert WithKey(pre, k) == [];
        assert |WithKey(issues, k)| == 1;
      }
    }
  }

  /** Every issue belongs to the group of its own key. */
  lemma {:induction false} IssueInItsGroup(issues: seq<Issue>, i: nat)
    requires i < |issues|
    ensures issues[i] in WithKey(issues, GroupKey(issues[i].text))
    ensures GroupKey(issues[i].text) in GroupKeys(issues)
  {
    var pre := issues[..|issues| - 1];
    if i < |issues| - 1 {
      IssueInItsGroup(pre, i);
    }
    GroupKeysExact(issues);
  }

  /** When `a` holds no ":" and `b` starts with one, the key of `a + b` is `a`. */
  lemma KeyBeforeColon(a: string, b: string)
    requires ':' !in a && |b| > 0 && b[0] == ':'
    ensures GroupKey(a + b) == a
  {
    var s := a + b;
    assert s[|a|] == ':';
    assert forall k | 0 <= k < |a| :: s[k] == a[k];
    var i := IndexOf(s, ':').value;
    assert i == |a|;
  }

  /**
   * The first ":" of a too-small file's message comes after "threshold", so its
   * group is named by the file's own size and era rather than by the problem.
   */
  lemma SmallIssueKey(size: nat, t: ThresholdConfig)
    requires ':' !in t.eraLabel
    ensures GroupKey(SmallIssue(size, t)) == "Suspiciously small file (" + Decimal(size) + " bytes , " + t.eraLabel + " threshold"
  {
    var n := Decimal(size);
    var head, mid, tail := "Suspiciously small file (", " bytes , ", " threshold";
    var a := head + n + mid + t.eraLabel + tail;
    var b := ": " + Decimal(t.minBytes) + " bytes)";
    assert SmallIssue(size, t) == a + b;
    assert ':' !in n by {
      forall k | 0 <= k < |n| ensures n[k] != ':' {
        assert IsDigit(n[k]);
      }
    }
    assert ':' !in head && ':' !in mid && ':' !in tail;
    KeyBeforeColon(a, b);
  }

  /** Every unreadable file falls in the one group "Cannot access file", whatever the error. */
  lemma AccessIssuesShareGroup(error: string)
    ensures GroupKey(AccessIssue(error)) == "Cannot access file"
  {
    KeyBeforeColon("Cannot access file", ": " + error);
    assert AccessIssue(error) == "Cannot access file" + (": " + error);
  }

  /** Every undecodable photo falls in the one group "Corrupted image". */
  lemma CorruptIssuesShareGroup(reason: string)
    ensures GroupKey(CorruptIssue(reason)) == "Corrupted image"
  {
    KeyBeforeColon("Corrupted image", ": " + reason);
    assert CorruptIssue(reason) == "Corrupted image" + (": " + reason);
  }

  /** A name with no ":" is its own key, as the zero-byte message is. */
  lemma ZeroByteIsItsOwnGroup()
    ensures GroupKey(ZeroByte) == ZeroByte
  {
    assert ':' !in ZeroByte;
  }

  // ------------------------------------------------------------ deleting

  /** The operator's answer and how many input lines it took. */
  datatype Answer = Answer(delete: bool, consumed: nat)

  /**
   * `prompt_delete_file`: "v" opens the file and asks once more; the file is
   * deleted iff the last answer is "d". `None` stands for the end of input,
   * which raises.
   */
  function PromptDelete(lines: seq<string>): (r: Option<Answer>)
    ensures r.Some? ==> 1 <= r.value.consumed <= 2 && r.value.consumed <= |lines|
  {
    if lines == [] then None else ReadAnswer(Lower(Strip(lines[0])), lines[1..])
  }

  /** The answer once the first line has been stripped and lower-cased; only "v" reads a second line. */
  function ReadAnswer(choice: string, rest: seq<string>): (r: Option<Answer>)
    ensures r.Some? ==> 1 <= r.value.consumed <= 2 && r.value.consumed <= |rest| + 1
  {
    if choice == "v" then
      if rest == [] then None else Some(Answer(Lower(Strip(rest[0])) == "d", 2))
    else Some(Answer(choice == "d", 1))
  }

  /**
   * Two lines are read exactly when the first answer is "v"; the file is
   * deleted exactly when the last line read says "d"; the prompt fails only
   * when input ends first.
   */
  lemma PromptDeleteReads(lines: seq<string>)
    ensures var r := PromptDelete(lines);
      && (r.Some? ==> (r.value.consumed == 2 <==> Lower(Strip(lines[0])) == "v"))
      && (r.Some? ==> (r.value.delete <==> Lower(Strip(lines[r.value.consumed - 1])) == "d"))
      && (r.None? <==> lines == [] || (Lower(Strip(lines[0])) == "v" && |lines| == 1))
  {
    if |lines| >= 2 {
      assert lines[1..][0] == lines[1];
    }
  }

  /** Viewing is offered only once: a second "v" keeps the file. */
  lemma ViewTwiceKeeps(lines: seq<string>)
    requires |lines| >= 2 && Lower(Strip(lines[0])) == "v" && Lower(Strip(lines[1])) == "v"
    ensures PromptDelete(lines) == Some(Answer(false, 2))
  {
  }

  datatype Outcome = Deleted | Kept | RemoveFailed | Crashed

  datatype DeleteStepResult = DeleteStepResult(disk: Disk, outcome: Outcome, consumed: nat)

  /** `os.remove` inside `try`: a missing or protected file is reported and left. */
  function RemoveSpec(d: Disk, p: Path, consumed: nat): DeleteStepResult {
    match d.Find(p)
    case None => DeleteStepResult(d, RemoveFailed, consumed)
    case Some(info) =>
      if info.locked then DeleteStepResult(d, RemoveFailed, consumed)
      else DeleteStepResult(d.Remove(p), Deleted, consumed)
  }

  /**
   * One issue of the deletion pass. In interactive mode the prompt first reads
   * the file's size, which raises when it cannot be read, and then reads the
   * answer, which raises at the end of input; both end the run.
   */
  function DeleteStep(d: Disk, issue: Issue, interactive: bool, lines: seq<string>): (r: DeleteStepResult)
    ensures r.consumed <= |lines|
  {
    if !interactive then RemoveSpec(d, issue.path, 0)
    else match d.Find(issue.path)
      case None => DeleteStepResult(d, Crashed, 0)
      case Some(info) =>
        if info.statError.Some? then DeleteStepResult(d, Crashed, 0)
        else match PromptDelete(lines)
          case None => DeleteStepResult(d, Crashed, 0)
          case Some(a) =>
            if a.delete then RemoveSpec(d, issue.path, a.consumed)
            else DeleteStepResult(d, Kept, a.consumed)
  }

  /** How many issues were deleted and skipped, and how many removals were reported as failed. */
  datatype DeleteTotals = DeleteTotals(deleted: nat, skipped: nat, failed: nat) {
    function Add(o: Outcome): DeleteTotals {
      match o
      case Deleted => this.(deleted := deleted + 1)
      case Kept => this.(skipped := skipped + 1)
      case RemoveFailed => this.(failed := failed + 1)
      case Crashed => this
    }

    function Sum(): nat {
      deleted + skipped + failed
    }
  }

  datatype Deletion = NotRequested | Completed(totals: DeleteTotals) | Interrupted(totals: DeleteTotals, at: Path)

  datatype DeleteRunResult = DeleteRunResult(disk: Disk, deletion: Deletion)

  function DeleteRun(d: Disk, issues: seq<Issue>, interactive: bool, lines: seq<string>, acc: DeleteTotals): (r: DeleteRunResult)
    ensures r.deletion.Completed? || r.deletion.Interrupted?
    decreases |issues|
  {
    if issues == [] then DeleteRunResult(d, Completed(acc))
    else
      var s := DeleteStep(d, issues[0], interactive, lines);
      if s.outcome == Crashed then DeleteRunResult(d, Interrupted(acc, issues[0].path))
      else DeleteRun(s.disk, issues[1..], interactive, lines[s.consumed..], acc.Add(s.outcome))
  }

  method DeleteOne(fs: FileSystem, issue: Issue, interactive: bool, lines: seq<string>) returns (outcome: Outcome, consumed: nat)
    modifies fs
    ensures DeleteStepResult(fs.Snapshot(), outcome, consumed) == DeleteStep(old(fs.Snapshot()), issue, interactive, lines)
  {
    var shouldDelete := true;
    consumed := 0;
    if interactive {
      var found := fs.Snapshot().Find(issue.path);
      if found.None? || found.value.statError.Some? {
        return Crashed, 0;
      }
      var answer := PromptDelete(lines);
      if answer.None? {
        return Crashed, 0;
      }
      shouldDelete, consumed := answer.value.delete, answer.value.consumed;
    }
    if !shouldDelete {
      return Kept, consumed;
    }
    var found := fs.Snapshot().Find(issue.path);
    if found.None? || found.value.locked {
      return RemoveFailed, consumed;
    }
    fs.Remove(issue.path);
    outcome := Deleted;
  }

  method DeleteIssues(fs: FileSystem, issues: seq<Issue>, interactive: bool, lines: seq<string>) returns (deletion: Deletion)
    modifies fs
    ensures DeleteRunResult(fs.Snapshot(), deletion) == DeleteRun(old(fs.Snapshot()), issues, interactive, lines, DeleteTotals(0, 0, 0))
  {
    ghost var d0 := fs.Snapshot();
    var totals := DeleteTotals(0, 0, 0);
    var rest := lines;
    var i := 0;
    while i < |issues|
      invariant 0 <= i <= |issues|
      invariant DeleteRun(d0, issues, interactive, lines, DeleteTotals(0, 0, 0))
             == DeleteRun(fs.Snapshot(), issues[i..], interactive, rest, totals)
    {
      assert issues[i..][0] == issues[i] && issues[i..][1..] == issues[i + 1..];
      var outcome, consumed := DeleteOne(fs, issues[i], interactive, rest);
      if outcome == Crashed {
        return Interrupted(totals, issues[i].path);
      }
      totals := totals.Add(outcome);
      rest := rest[consumed..];
      i := i + 1;
    }
    assert issues[i..] == [];
    return Completed(totals);
  }

  // ------------------------------------------------------------ the whole check

  datatype Report =
    | ThresholdsShown
    | NotAccessible
    | AllHealthy(total: nat, healthy: nat)
    | IssuesFound(total: nat, healthy: nat, issues: seq<Issue>, keys: seq<string>,
                  groups: map<string, seq<Issue>>, deletion: Deletion)

  datatype RunResult = RunResult(disk: Disk, report: Report)

  /** `health_check(root, dry_run, interactive, display_thresholds)`, with `lines` as the operator's input. */
  function HealthCheckSpec(d: Disk, root: Path, dryRun: bool, interactive: bool, displayThresholds: bool,
                           lines: seq<string>): RunResult
  {
    if displayThresholds then RunResult(d, ThresholdsShown)
    else if !d.Exists(root) then RunResult(d, NotAccessible)
    else
      var s := ScanSpec(d.Walk(root));
      if s.issues == [] then RunResult(d, AllHealthy(s.total, s.healthy))
      else
        var keys := GroupKeys(s.issues);
        var groups := map k | k in keys :: WithKey(s.issues, k);
        var r := if dryRun then DeleteRunResult(d, NotRequested)
                 else DeleteRun(d, s.issues, interactive, lines, DeleteTotals(0, 0, 0));
        RunResult(r.disk, IssuesFound(s.total, s.healthy, s.issues, keys, groups, r.deletion))
  }

  method RunHealthCheck(fs: FileSystem, root: Path, dryRun: bool, interactive: bool, displayThresholds: bool,
                        lines: seq<string>) returns (report: Report)
    modifies fs
    ensures RunResult(fs.Snapshot(), report) == HealthCheckSpec(old(fs.Snapshot()), root, dryRun, interactive, displayThresholds, lines)
  {
    if displayThresholds {
      return ThresholdsShown;
    }
    if !fs.Snapshot().Exists(root) {
      return NotAccessible;
    }
    var issues, healthy, total := ScanFiles(fs.Snapshot().Walk(root));
    if issues == [] {
      return AllHealthy(total, healthy);
    }
    var keys, groups := GroupIssues(issues);
    assert groups == map k | k in keys :: WithKey(issues, k);
    var deletion := NotRequested;
    if !dryRun {
      deletion := DeleteIssues(fs, issues, interactive, lines);
    }
    return IssuesFound(total, healthy, issues, keys, groups, deletion);
  }

  // ------------------------------------------------------------ properties of deletion

  /** Every issue the pass reaches ends deleted, skipped or reported as a failed removal. */
  lemma {:induction false} DeleteRunAccounts(d: Disk, issues: seq<Issue>, interactive: bool, lines: seq<string>, acc: DeleteTotals)
    ensures var r := DeleteRun(d, issues, interactive, lines, acc).deletion;
      r.Completed? ==> r.totals.Sum() == acc.Sum() + |issues|
    ensures var r := DeleteRun(d, issues, interactive, lines, acc).deletion;
      r.totals.Sum() <= acc.Sum() + |issues|
    decreases |issues|
  {
    if issues != [] {
      var s := DeleteStep(d, issues[0], interactive, lines);
      if s.outcome != Crashed {
        DeleteRunAccounts(s.disk, issues[1..], interactive, lines[s.consumed..], acc.Add(s.outcome));
      }
    }
  }

  /**
   * Without prompting, the pass never stops early, skips nothing and tries to
   * delete every issue file: one still there afterwards was protected.
   */
  lemma {:induction false} NonInteractiveDeletesAll(d: Disk, issues: seq<Issue>, lines: seq<string>, acc: DeleteTotals)
    ensures var r := DeleteRun(d, issues, false, lines, acc);
      && r.deletion.Completed?
      && r.deletion.totals.skipped == acc.skipped
      && r.deletion.totals.deleted + r.deletion.totals.failed == acc.deleted + acc.failed + |issues|
    ensures forall iss | iss in issues && DeleteRun(d, issues, false, lines, acc).disk.IsFile(iss.path) ::
      d.Find(iss.path).Some? && d.Find(iss.path).value.locked
    decreases |issues|
  {
    if issues != [] {
      var s := DeleteStep(d, issues[0], false, lines);
      var p := issues[0].path;
      var tail := issues[1..];
      var acc' := acc.Add(s.outcome);
      NonInteractiveDeletesAll(s.disk, tail, lines, acc');
      var final := DeleteRun(s.disk, tail, false, lines, acc').disk;
      assert DeleteRun(d, issues, false, lines, acc).disk == final;
      forall iss | iss in issues && final.IsFile(iss.path)
        ensures d.Find(iss.path).Some? && d.Find(iss.path).value.locked
      {
        if s.outcome == Deleted {
          FindAfterRemove(d.files, p, iss.path);
        }
        if iss in tail {
          assert s.disk.Find(iss.path).Some?;
        } else {
          assert iss == issues[0];
          if !(d.Find(p).Some? && d.Find(p).value.locked) {
            if s.outcome == Deleted {
              assert !s.disk.IsFile(p);
            }
            DeleteRunNeverRestores(s.disk, tail, false, lines, acc', p);
          }
        }
      }
    }
  }

  /** The pass only removes files: a path that is not a file stays so. */
  lemma {:induction false} DeleteRunNeverRestores(d: Disk, issues: seq<Issue>, interactive: bool, lines: seq<string>,
                                                  acc: DeleteTotals, q: Path)
    requires !d.IsFile(q)
    ensures !DeleteRun(d, issues, interactive, lines, acc).disk.IsFile(q)
    decreases |issues|
  {
    if issues != [] {
      var s := DeleteStep(d, issues[0], interactive, lines);
      if s.outcome != Crashed {
        if s.outcome == Deleted {
          FindAfterRemove(d.files, issues[0].path, q);
        }
        DeleteRunNeverRestores(s.disk, issues[1..], interactive, lines[s.consumed..], acc.Add(s.outcome), q);
      }
    }
  }

  /** One issue's step removes that issue's file or nothing. */
  lemma DeleteStepEffect(d: Disk, issue: Issue, interactive: bool, lines: seq<string>)
    ensures var s := DeleteStep(d, issue, interactive, lines);
      s.disk == if s.outcome == Deleted then d.Remove(issue.path) else d
  {
  }

  /** A file that is not among the issues is left exactly as it was. */
  lemma {:induction false} DeleteRunKeepsOthers(d: Disk, issues: seq<Issue>, interactive: bool, lines: seq<string>,
                                                acc: DeleteTotals, q: Path)
    requires forall iss | iss in issues :: iss.path != q
    ensures DeleteRun(d, issues, interactive, lines, acc).disk.Find(q) == d.Find(q)
    ensures DeleteRun(d, issues, interactive, lines, acc).disk.dirs == d.dirs
    decreases |issues|
  {
    if issues != [] {
      var s := DeleteStep(d, issues[0], interactive, lines);
      if s.outcome != Crashed {
        DeleteStepEffect(d, issues[0], interactive, lines);
        if s.outcome == Deleted {
          FindAfterRemove(d.files, issues[0].path, q);
        }
        assert forall iss | iss in issues[1..] :: iss in issues;
        DeleteRunKeepsOthers(s.disk, issues[1..], interactive, lines[s.consumed..], acc.Add(s.outcome), q);
      }
    }
  }

  /** A dry run deletes nothing, whatever it finds. */
  lemma HealthDryRunDeletesNothing(d: Disk, root: Path, interactive: bool, displayThresholds: bool, lines: seq<string>)
    ensures var r := HealthCheckSpec(d, root, true, interactive, displayThresholds, lines);
      r.disk == d && (r.report.IssuesFound? ==> r.report.deletion == NotRequested)
  {
  }

  /** The summary adds up: every scanned file is healthy or has exactly one issue, and the groups hold all issues. */
  lemma HealthSummaryAddsUp(d: Disk, root: Path, dryRun: bool, interactive: bool, lines: seq<string>)
    ensures var r := HealthCheckSpec(d, root, dryRun, interactive, false, lines).report;
      && (r.AllHealthy? ==> r.total == r.healthy)
      && (r.IssuesFound? ==> r.total == r.healthy + |r.issues| && GroupSizes(r.keys, r.issues) == |r.issues|)
  {
    ScanTotals(d.Walk(root));
    GroupsPartitionIssues(ScanSpec(d.Walk(root)).issues);
  }
}

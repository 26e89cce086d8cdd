/**
 * `flatten_folder` (flatten.py): every file under a source folder is moved into
 * one target folder. A dictionary `seen`, updated in place as the walk goes on,
 * maps each file name to where its kept copy is and how big it is; of two files
 * with the same name the strictly bigger one is kept and the other removed.
 */
module Flatten {
  import opened Wrappers
  import opened Text
  import opened FileSystem
  import opened Media

  /** The value `seen[name]`: the path of the kept copy and its size. */
  datatype Kept = Kept(path: Path, size: nat)

  type Seen = map<string, Kept>

  /**
   * `if extensions and ext not in extensions: continue`, with `ext` the
   * lower-cased suffix: `None` and the empty set let every file through.
   */
  predicate Admitted(name: string, extensions: Option<set<string>>) {
    extensions.None? || extensions.value == {} || Lower(SplitExt(name)) in extensions.value
  }

  /** A file of the walk that the loop acts on: it passes the filter and is not directly in the target. */
  predicate Moves(p: Path, target: Path, extensions: Option<set<string>>) {
    Admitted(Name(p), extensions) && Parent(p) != target
  }

  /** `os.remove(p)` succeeds. */
  predicate Removable(d: Disk, p: Path) {
    d.Find(p).Some? && !d.Find(p).value.locked
  }

  /** What the loop did with one file; `Failed` is an exception that escapes and ends the run. */
  datatype Action = Filtered | InTarget | Moved | Replaced | SmallerSkipped | Failed(at: Path)

  datatype Step = Step(disk: Disk, seen: Seen, action: Action)

  /**
   * One file of the walk, in the order of the source: the extension filter,
   * `os.path.getsize` (uncaught), the target-folder test, then the decision on
   * `seen`. In a dry run nothing on the disk changes, and a bigger duplicate does
   * not update `seen` while a first occurrence does.
   */
  function FlattenStep(d: Disk, seen: Seen, src: Path, target: Path, dryRun: bool,
                       extensions: Option<set<string>>): Step
  {
    var name := Name(src);
    if !Admitted(name, extensions) then Step(d, seen, Filtered)
    else match d.Find(src)
      case None => Step(d, seen, Failed(src))
      case Some(info) =>
        if info.statError.Some? then Step(d, seen, Failed(src))
        else if Parent(src) == target then Step(d, seen, InTarget)
        else
          var dest := target + [name];
          if name !in seen then
            Step(if dryRun then d else d.Move(src, dest), seen[name := Kept(dest, info.size)], Moved)
          else if info.size > seen[name].size then
            if dryRun then Step(d, seen, Replaced)
            else
              var existing := seen[name].path;
              if !Removable(d, existing) then Step(d, seen, Failed(existing))
              else Step(d.Remove(existing).Move(src, dest), seen[name := Kept(dest, info.size)], Replaced)
          else if dryRun then Step(d, seen, SmallerSkipped)
          else if info.locked then Step(d, seen, Failed(src))
          else Step(d.Remove(src), seen, SmallerSkipped)
  }

  /** How the run ended: "Flattening complete.", or an exception raised at a path. */
  datatype Report = Complete | Crashed(at: Path)

  datatype RunResult = RunResult(disk: Disk, seen: Seen, report: Report)

  function FlattenRun(d: Disk, seen: Seen, paths: seq<Path>, target: Path, dryRun: bool,
                      extensions: Option<set<string>>): RunResult
    decreases |paths|
  {
    if paths == [] then RunResult(d, seen, Complete)
    else
      var s := FlattenStep(d, seen, paths[0], target, dryRun, extensions);
      if s.action.Failed? then RunResult(d, seen, Crashed(s.action.at))
      else FlattenRun(s.disk, s.seen, paths[1..], target, dryRun, extensions)
  }

  /** The walk of the source folder, taken once the target has been created. */
  function WalkAfterMakeDirs(d: Disk, source: Path, target: Path): seq<Path> {
    Paths(d.MakeDirs(target).Walk(source))
  }

  /** `flatten_folder(source, target, dry_run, extensions)`: the target is created first, even in a dry run. */
  function FlattenSpec(d: Disk, source: Path, target: Path, dryRun: bool,
                       extensions: Option<set<string>>): RunResult
  {
    FlattenRun(d.MakeDirs(target), map[], WalkAfterMakeDirs(d, source, target), target, dryRun, extensions)
  }

  method FlattenFile(fs: FileSystem, seen: Seen, src: Path, target: Path, dryRun: bool,
                     extensions: Option<set<string>>) returns (seen': Seen, action: Action)
    modifies fs
    ensures Step(fs.Snapshot(), seen', action) == FlattenStep(old(fs.Snapshot()), seen, src, target, dryRun, extensions)
  {
    seen' := seen;
    var name := Name(src);
    if !Admitted(name, extensions) {
      return seen', Filtered;
    }
    var found := fs.Snapshot().Find(src);
    if found.None? || found.value.statError.Some? {
      return seen', Failed(src);
    }
    var size := found.value.size;
    if Parent(src) == target {
      return seen', InTarget;
    }
    var dest := target + [name];
    if name !in seen {
      if !dryRun {
        fs.Move(src, dest);
      }
      seen' := seen[name := Kept(dest, size)];
      return seen', Moved;
    }
    if size > seen[name].size {
      if !dryRun {
        var existing := seen[name].path;
        if !Removable(fs.Snapshot(), existing) {
          return seen', Failed(existing);
        }
        fs.Remove(existing);
        fs.Move(src, dest);
        seen' := seen[name := Kept(dest, size)];
      }
      return seen', Replaced;
    }
    if !dryRun {
      if found.value.locked {
        return seen', Failed(src);
      }
      fs.Remove(src);
    }
    return seen', SmallerSkipped;
  }

  /** One turn of the loop, stated as the first step of the run over the remaining paths. */
  method FlattenNext(fs: FileSystem, seen: Seen, paths: seq<Path>, target: Path, dryRun: bool,
                     extensions: Option<set<string>>) returns (seen': Seen, action: Action)
    requires paths != []
    modifies fs
    ensures action.Failed? ==> FlattenRun(old(fs.Snapshot()), seen, paths, target, dryRun, extensions)
                                == RunResult(fs.Snapshot(), seen, Crashed(action.at))
    ensures !action.Failed? ==> FlattenRun(old(fs.Snapshot()), seen, paths, target, dryRun, extensions)
                                 == FlattenRun(fs.Snapshot(), seen', paths[1..], target, dryRun, extensions)
  {
    seen', action := FlattenFile(fs, seen, paths[0], target, dryRun, extensions);
  }

  /** The loop over the walk with `seen` starting empty; an exception stops it. */
  method FlattenAll(fs: FileSystem, paths: seq<Path>, target: Path, dryRun: bool,
                    extensions: Option<set<string>>) returns (seen: Seen, report: Report)
    modifies fs
    ensures RunResult(fs.Snapshot(), seen, report) == FlattenRun(old(fs.Snapshot()), map[], paths, target, dryRun, extensions)
  {
    ghost var d0 := fs.Snapshot();
    seen := map[];
    var i := 0;
    while i < |paths|
      invariant 0 <= i <= |paths|
      invariant FlattenRun(d0, map[], paths, target, dryRun, extensions)
             == FlattenRun(fs.Snapshot(), seen, paths[i..], target, dryRun, extensions)
    {
      assert paths[i..][1..] == paths[i + 1..];
      var seen', action := FlattenNext(fs, seen, paths[i..], target, dryRun, extensions);
      if action.Failed? {
        return seen, Crashed(action.at);
      }
      seen := seen';
      i := i + 1;
    }
    assert paths[i..] == [];
    return seen, Complete;
  }

  method FlattenFolder(fs: FileSystem, source: Path, target: Path, dryRun: bool,
                       extensions: Option<set<string>>) returns (report: Report)
    modifies fs
    ensures fs.Snapshot() == FlattenSpec(old(fs.Snapshot()), source, target, dryRun, extensions).disk
    ensures report == FlattenSpec(old(fs.Snapshot()), source, target, dryRun, extensions).report
  {
    ghost var d0 := fs.Snapshot();
    fs.MakeDirs(target);
    var paths := Paths(fs.Snapshot().Walk(source));
    assert paths == WalkAfterMakeDirs(d0, source, target);
    var seen;
    seen, report := FlattenAll(fs, paths, target, dryRun, extensions);
  }

  // ------------------------------------------------------------ dry run

  /**
   * A dry run moves and removes nothing, and a name once recorded keeps its first
   * record: a bigger duplicate is announced but `seen` is not updated.
   */
  lemma StepDry(d: Disk, seen: Seen, src: Path, target: Path, extensions: Option<set<string>>)
    ensures var s := FlattenStep(d, seen, src, target, true, extensions);
      s.disk == d && forall n | n in seen :: n in s.seen && s.seen[n] == seen[n]
  {
  }

  lemma {:induction false} DryRunMovesNothing(d: Disk, seen: Seen, paths: seq<Path>, target: Path,
                                              extensions: Option<set<string>>)
    ensures var r := FlattenRun(d, seen, paths, target, true, extensions);
      r.disk == d && forall n | n in seen :: n in r.seen && r.seen[n] == seen[n]
    decreases |paths|
  {
    if paths != [] {
      var s := FlattenStep(d, seen, paths[0], target, true, extensions);
      StepDry(d, seen, paths[0], target, extensions);
      if !s.action.Failed? {
        DryRunMovesNothing(s.disk, s.seen, paths[1..], target, extensions);
      }
    }
  }

  /** In a dry run the only change is that the target folder and its ancestors now exist. */
  lemma FlattenDryRun(d: Disk, source: Path, target: Path, extensions: Option<set<string>>)
    ensures FlattenSpec(d, source, target, true, extensions).disk.files == d.files
    ensures forall i | 1 <= i <= |target| :: FlattenSpec(d, source, target, true, extensions).disk.IsDir(target[..i])
  {
    DryRunMovesNothing(d.MakeDirs(target), map[], WalkAfterMakeDirs(d, source, target), target, extensions);
  }

  // ------------------------------------------------------------ what a step leaves alone

  /** A file the loop does not act on leaves the disk and `seen` as they were. */
  lemma IdleStep(d: Disk, seen: Seen, src: Path, target: Path, dryRun: bool, extensions: Option<set<string>>)
    requires !Moves(src, target, extensions)
    ensures var s := FlattenStep(d, seen, src, target, dryRun, extensions);
      s.disk == d && s.seen == seen
  {
  }

  /** The three things a real step on `src` that does not raise can do to the disk and to `seen`. */
  predicate StepOutcome(d: Disk, seen: Seen, src: Path, target: Path, s: Step) {
    var name := Name(src);
    var dest := target + [name];
    s.action.Failed? || (
      && d.Find(src).Some?
      && (s.action.Moved? || s.action.Replaced? || s.action.SmallerSkipped?)
      && (s.action.Moved? ==>
            name !in seen && s.disk == d.Move(src, dest) && s.seen == seen[name := Kept(dest, d.Find(src).value.size)])
      && (s.action.Replaced? ==>
            name in seen && d.Find(src).value.size > seen[name].size
            && s.disk == d.Remove(seen[name].path).Move(src, dest)
            && s.seen == seen[name := Kept(dest, d.Find(src).value.size)])
      && (s.action.SmallerSkipped? ==>
            name in seen && d.Find(src).value.size <= seen[name].size && s.disk == d.Remove(src) && s.seen == seen))
  }

  /** A real step on a file that passes the filter and is not in the target does one of those three things. */
  lemma RealStep(d: Disk, seen: Seen, src: Path, target: Path, extensions: Option<set<string>>)
    requires Moves(src, target, extensions)
    ensures StepOutcome(d, seen, src, target, FlattenStep(d, seen, src, target, false, extensions))
  {
  }

  /**
   * One step changes nothing on the disk outside the file it handles, its
   * destination `target/name` and the kept copy it may replace.
   */
  lemma StepFrame(d: Disk, seen: Seen, src: Path, target: Path, dryRun: bool,
                  extensions: Option<set<string>>, q: Path)
    requires Moves(src, target, extensions) ==>
      q != src && !Under(q, src) && !AtOrUnder(q, target + [Name(src)])
      && (Name(src) in seen ==> q != seen[Name(src)].path)
    ensures FlattenStep(d, seen, src, target, dryRun, extensions).disk.Find(q) == d.Find(q)
  {
    var s := FlattenStep(d, seen, src, target, dryRun, extensions);
    var name := Name(src);
    var dest := target + [name];
    if dryRun {
      StepDry(d, seen, src, target, extensions);
    } else if !Moves(src, target, extensions) {
      IdleStep(d, seen, src, target, dryRun, extensions);
    } else {
      RealStep(d, seen, src, target, extensions);
      if s.action.Moved? {
        if !AtOrUnder(dest, src) {
          FindAfterMove(d.files, src, dest, q);
        }
      } else if s.action.Replaced? {
        var e := seen[name].path;
        if !AtOrUnder(dest, src) {
          FindAfterMove(d.Remove(e).files, src, dest, q);
        }
        FindAfterRemove(d.files, e, q);
      } else if s.action.SmallerSkipped? {
        FindAfterRemove(d.files, src, q);
      }
    }
  }

  /** A step records nothing new except, for a file it moves, that file's place in the target. */
  lemma StepSeenRecords(d: Disk, seen: Seen, src: Path, target: Path, dryRun: bool, extensions: Option<set<string>>)
    ensures var s := FlattenStep(d, seen, src, target, dryRun, extensions);
      forall n | n in s.seen ::
        (n in seen && s.seen[n] == seen[n]) || (Moves(src, target, extensions) && s.seen[n].path == target + [Name(src)])
  {
  }

  /** The whole loop leaves alone every path that none of its steps touches. */
  lemma {:induction false} RunFrame(d: Disk, seen: Seen, paths: seq<Path>, target: Path, dryRun: bool,
                                    extensions: Option<set<string>>, q: Path)
    requires forall n | n in seen :: seen[n].path != q
    requires forall p | p in paths && Moves(p, target, extensions) ::
      q != p && !Under(q, p) && !AtOrUnder(q, target + [Name(p)])
    ensures FlattenRun(d, seen, paths, target, dryRun, extensions).disk.Find(q) == d.Find(q)
    decreases |paths|
  {
    if paths != [] {
      var s := FlattenStep(d, seen, paths[0], target, dryRun, extensions);
      if !s.action.Failed? {
        StepFrame(d, seen, paths[0], target, dryRun, extensions, q);
        StepSeenRecords(d, seen, paths[0], target, dryRun, extensions);
        RunFrame(s.disk, s.seen, paths[1..], target, dryRun, extensions, q);
      }
    }
  }

  /**
   * A file whose extension is filtered out stays where it is, with its record,
   * provided it does not lie inside another file of the walk or inside a folder
   * named like one in the target.
   */
  lemma FilteredFileStays(d: Disk, source: Path, target: Path, dryRun: bool,
                          extensions: Option<set<string>>, q: Path)
    requires !Admitted(Name(q), extensions)
    requires forall p | p in WalkAfterMakeDirs(d, source, target) :: !Under(q, p) && !Under(q, target + [Name(p)])
    ensures FlattenSpec(d, source, target, dryRun, extensions).disk.Find(q) == d.Find(q)
  {
    var paths := WalkAfterMakeDirs(d, source, target);
    forall p | p in paths && Moves(p, target, extensions)
      ensures q != p && !AtOrUnder(q, target + [Name(p)])
    {
      assert Name(q) != Name(p);
      EntryName(q, target, Name(p));
    }
    RunFrame(d.MakeDirs(target), map[], paths, target, dryRun, extensions, q);
  }

  /**
   * A file directly in the target folder is skipped by its own step, and no
   * other step disturbs it unless a moved file has the same name: it stays as
   * it was as long as no file of the walk is the target or one of its folders.
   */
  lemma TargetFileStays(d: Disk, source: Path, target: Path, dryRun: bool,
                        extensions: Option<set<string>>, q: Path)
    requires q != [] && Parent(q) == target
    requires forall p | p in WalkAfterMakeDirs(d, source, target) && Moves(p, target, extensions) ::
      Name(p) != Name(q) && !AtOrUnder(target, p)
    ensures FlattenSpec(d, source, target, dryRun, extensions).disk.Find(q) == d.Find(q)
  {
    var paths := WalkAfterMakeDirs(d, source, target);
    assert q == target + [Name(q)];
    RunFrame(d.MakeDirs(target), map[], paths, target, dryRun, extensions, q);
  }

  // ------------------------------------------------------------ keeping the bigger file

  /** Every record of `seen` names `target/name`, where a file of the recorded size is found. */
  predicate KeptAt(d: Disk, seen: Seen, target: Path) {
    forall n | n in seen ::
      seen[n].path == target + [n] && d.Find(target + [n]).Some? && d.Find(target + [n]).value.size == seen[n].size
  }

  /**
   * The walk is that of a real folder tree: each path once, no file inside
   * another file or holding the target, and the files to be moved lying outside
   * the target.
   */
  predicate TreeWalk(paths: seq<Path>, target: Path, extensions: Option<set<string>>) {
    && (forall i, j | 0 <= i < j < |paths| :: paths[i] != paths[j])
    && (forall p, q | p in paths && q in paths :: !Under(q, p))
    && (forall p | p in paths :: !AtOrUnder(target, p))
    && (forall p | p in paths && Moves(p, target, extensions) :: !Under(p, target))
  }

  lemma TreeWalkTail(paths: seq<Path>, target: Path, extensions: Option<set<string>>)
    requires paths != [] && TreeWalk(paths, target, extensions)
    ensures TreeWalk(paths[1..], target, extensions) && paths[0] !in paths[1..]
  {
    var rest := paths[1..];
    forall i, j | 0 <= i < j < |rest| ensures rest[i] != rest[j] {
      assert rest[i] == paths[i + 1] && rest[j] == paths[j + 1];
    }
  }

  /** A path at an entry of a folder, and not inside it, carries that entry's name. */
  lemma EntryName(q: Path, dir: Path, n: string)
    ensures AtOrUnder(q, dir + [n]) && !Under(q, dir + [n]) ==> Name(q) == n
  {
  }

  /** Two entries of a folder are nested only when they are the same entry. */
  lemma DistinctEntries(dir: Path, m: string, n: string)
    ensures AtOrUnder(dir + [m], dir + [n]) ==> m == n
  {
    if AtOrUnder(dir + [m], dir + [n]) {
      assert (dir + [m])[..|dir| + 1] == dir + [m];
      assert (dir + [m])[|dir|] == (dir + [n])[|dir|];
    }
  }

  /** A path outside the target is outside every entry of it. */
  lemma OutsideTarget(p: Path, target: Path, n: string)
    requires !Under(p, target)
    ensures !AtOrUnder(p, target + [n])
  {
  }

  /**
   * Renaming a file that is neither in the target nor holding it to `target/n`
   * puts its record there, leaves every other entry of the target alone and
   * leaves nothing at its old path.
   */
  lemma MoveIntoTarget(d: Disk, src: Path, target: Path, n: string, m: string)
    requires !AtOrUnder(target, src) && Parent(src) != target && !Under(src, target)
    ensures d.Move(src, target + [n]).Find(target + [m]) == if m == n then d.Find(src) else d.Find(target + [m])
    ensures !d.Move(src, target + [n]).IsFile(src)
  {
    forall x ensures !AtOrUnder(target + [x], src) {
    }
    OutsideTarget(src, target, n);
    FindAfterMove(d.files, src, target + [n], target + [m]);
    FindAfterMove(d.files, src, target + [n], src);
    assert d.Move(src, target + [n]).files == MoveEntries(d.files, src, target + [n]);
    DistinctEntries(target, m, n);
    assert d.Move(src, target + [n]).Find(target + [m]) == if m == n then d.Find(src) else d.Find(target + [m]);
  }

  /** Renaming a file to `target/name` for a new name records it truly. */
  lemma KeptAfterMove(d: Disk, seen: Seen, src: Path, target: Path)
    requires KeptAt(d, seen, target) && d.Find(src).Some? && Name(src) !in seen
    requires !AtOrUnder(target, src) && Parent(src) != target && !Under(src, target)
    ensures KeptAt(d.Move(src, target + [Name(src)]),
                   seen[Name(src) := Kept(target + [Name(src)], d.Find(src).value.size)], target)
  {
    var name := Name(src);
    var d' := d.Move(src, target + [name]);
    var seen' := seen[name := Kept(target + [name], d.Find(src).value.size)];
    forall m | m in seen'
      ensures seen'[m].path == target + [m] && d'.Find(target + [m]).Some? && d'.Find(target + [m]).value.size == seen'[m].size
    {
      MoveIntoTarget(d, src, target, name, m);
    }
  }

  /** Removing the kept copy and renaming a bigger file in its place records the bigger one truly. */
  lemma KeptAfterReplace(d: Disk, seen: Seen, src: Path, target: Path)
    requires KeptAt(d, seen, target) && d.Find(src).Some? && Name(src) in seen
    requires !AtOrUnder(target, src) && Parent(src) != target && !Under(src, target)
    ensures KeptAt(d.Remove(seen[Name(src)].path).Move(src, target + [Name(src)]),
                   seen[Name(src) := Kept(target + [Name(src)], d.Find(src).value.size)], target)
  {
    var name := Name(src);
    var d' := d.Remove(target + [name]).Move(src, target + [name]);
    var seen' := seen[name := Kept(target + [name], d.Find(src).value.size)];
    forall m | m in seen'
      ensures seen'[m].path == target + [m] && d'.Find(target + [m]).Some? && d'.Find(target + [m]).value.size == seen'[m].size
    {
      ReplaceFinds(d, src, target, m);
    }
  }

  /** After the replacement, `target/name` holds the moved file and every other entry of the target is as it was. */
  lemma ReplaceFinds(d: Disk, src: Path, target: Path, m: string)
    requires !AtOrUnder(target, src) && Parent(src) != target && !Under(src, target)
    ensures var name := Name(src);
      d.Remove(target + [name]).Move(src, target + [name]).Find(target + [m]) ==
        if m == name then d.Find(src) else d.Find(target + [m])
  {
    var name := Name(src);
    var e := target + [name];
    MoveIntoTarget(d.Remove(e), src, target, name, m);
    if m == name {
      FindAfterRemove(d.files, e, src);
    } else {
      assert (target + [m])[|target|] != e[|target|];
      FindAfterRemove(d.files, e, target + [m]);
    }
  }

  /** Removing a smaller duplicate keeps every record true. */
  lemma KeptAfterRemove(d: Disk, seen: Seen, src: Path, target: Path)
    requires KeptAt(d, seen, target) && Parent(src) != target
    ensures KeptAt(d.Remove(src), seen, target)
  {
    forall m | m in seen ensures d.Remove(src).Find(target + [m]) == d.Find(target + [m]) {
      FindAfterRemove(d.files, src, target + [m]);
    }
  }

  /** A real step keeps every record of `seen` true on the disk. */
  lemma StepKeepsKept(d: Disk, seen: Seen, src: Path, target: Path, extensions: Option<set<string>>)
    requires KeptAt(d, seen, target) && !AtOrUnder(target, src)
    requires Moves(src, target, extensions) ==> !Under(src, target)
    ensures var s := FlattenStep(d, seen, src, target, false, extensions);
      s.action.Failed? || KeptAt(s.disk, s.seen, target)
  {
    var s := FlattenStep(d, seen, src, target, false, extensions);
    if !Moves(src, target, extensions) {
      IdleStep(d, seen, src, target, false, extensions);
    } else {
      RealStep(d, seen, src, target, extensions);
      if s.action.Moved? {
        KeptAfterMove(d, seen, src, target);
      } else if s.action.Replaced? {
        KeptAfterReplace(d, seen, src, target);
      } else if s.action.SmallerSkipped? {
        KeptAfterRemove(d, seen, src, target);
      }
    }
  }

  /** One real step: the handled file is gone and the record of its name is at least its size; no record shrinks. */
  lemma StepHandles(d: Disk, seen: Seen, src: Path, target: Path, extensions: Option<set<string>>)
    requires KeptAt(d, seen, target) && Moves(src, target, extensions)
    requires !AtOrUnder(target, src) && !Under(src, target)
    ensures var s := FlattenStep(d, seen, src, target, false, extensions);
      s.action.Failed? || (
        && d.Find(src).Some?
        && !s.disk.IsFile(src)
        && Name(src) in s.seen && s.seen[Name(src)].size >= d.Find(src).value.size
        && forall n | n in seen :: n in s.seen && s.seen[n].size >= seen[n].size)
  {
    RealStep(d, seen, src, target, extensions);
    OutcomeHandles(d, seen, src, target, FlattenStep(d, seen, src, target, false, extensions));
  }

  lemma OutcomeHandles(d: Disk, seen: Seen, src: Path, target: Path, s: Step)
    requires StepOutcome(d, seen, src, target, s)
    requires !AtOrUnder(target, src) && Parent(src) != target && !Under(src, target)
    ensures s.action.Failed? || (
        && d.Find(src).Some?
        && !s.disk.IsFile(src)
        && Name(src) in s.seen && s.seen[Name(src)].size >= d.Find(src).value.size
        && forall n | n in seen :: n in s.seen && s.seen[n].size >= seen[n].size)
  {
    var name := Name(src);
    if s.action.Moved? {
      MoveIntoTarget(d, src, target, name, name);
    } else if s.action.Replaced? {
      MoveIntoTarget(d.Remove(seen[name].path), src, target, name, name);
    }
  }

  /** Records that stay true and never shrink: the facts a real run carries from step to step. */
  lemma {:induction false} RunKeepsKept(d: Disk, seen: Seen, paths: seq<Path>, target: Path,
                                        extensions: Option<set<string>>)
    requires KeptAt(d, seen, target) && TreeWalk(paths, target, extensions)
    ensures var r := FlattenRun(d, seen, paths, target, false, extensions);
      r.report.Complete? ==>
        KeptAt(r.disk, r.seen, target) && forall n | n in seen :: n in r.seen && r.seen[n].size >= seen[n].size
    decreases |paths|
  {
    if paths != [] {
      var p0 := paths[0];
      var s := FlattenStep(d, seen, p0, target, false, extensions);
      if !s.action.Failed? {
        StepKeepsKept(d, seen, p0, target, extensions);
        TreeWalkTail(paths, target, extensions);
        RunKeepsKept(s.disk, s.seen, paths[1..], target, extensions);
        if Moves(p0, target, extensions) {
          StepHandles(d, seen, p0, target, extensions);
        }
      }
    }
  }

  /**
   * A real run that completes keeps, for every name, the biggest file: every
   * file moved or removed has left its folder, and the record kept under its
   * name is at least its size.
   */
  lemma {:induction false} RunKeepsBigger(d: Disk, seen: Seen, paths: seq<Path>, target: Path,
                                          extensions: Option<set<string>>)
    requires KeptAt(d, seen, target) && TreeWalk(paths, target, extensions)
    ensures var r := FlattenRun(d, seen, paths, target, false, extensions);
      r.report.Complete? ==>
        forall p | p in paths && Moves(p, target, extensions) ::
          d.Find(p).Some? && !r.disk.IsFile(p) && Name(p) in r.seen && r.seen[Name(p)].size >= d.Find(p).value.size
    decreases |paths|, 1
  {
    if paths != [] && !FlattenStep(d, seen, paths[0], target, false, extensions).action.Failed? {
      RestKeepsBigger(d, seen, paths, target, extensions);
      if Moves(paths[0], target, extensions) {
        HeadKeepsBigger(d, seen, paths, target, extensions);
      }
    }
  }

  /** The paths after the first keep what the rest of the run gives them. */
  lemma {:induction false} RestKeepsBigger(d: Disk, seen: Seen, paths: seq<Path>, target: Path,
                                           extensions: Option<set<string>>)
    requires KeptAt(d, seen, target) && TreeWalk(paths, target, extensions)
    requires paths != [] && !FlattenStep(d, seen, paths[0], target, false, extensions).action.Failed?
    ensures var r := FlattenRun(d, seen, paths, target, false, extensions);
      r.report.Complete? ==>
        forall p | p in paths[1..] && Moves(p, target, extensions) ::
          d.Find(p).Some? && !r.disk.IsFile(p) && Name(p) in r.seen && r.seen[Name(p)].size >= d.Find(p).value.size
    decreases |paths|, 0
  {
    var p0 := paths[0];
    var rest := paths[1..];
    var s := FlattenStep(d, seen, p0, target, false, extensions);
    assert FlattenRun(s.disk, s.seen, rest, target, false, extensions) == FlattenRun(d, seen, paths, target, false, extensions);
    TreeWalkTail(paths, target, extensions);
    forall p | p in rest && Moves(p, target, extensions) ensures s.disk.Find(p) == d.Find(p) {
      OutsideTarget(p, target, Name(p0));
      StepFrame(d, seen, p0, target, false, extensions, p);
    }
    StepKeepsKept(d, seen, p0, target, extensions);
    RunKeepsBigger(s.disk, s.seen, rest, target, extensions);
  }

  /** The first path of the walk, once moved, stays out of its folder for the rest of the run. */
  lemma HeadKeepsBigger(d: Disk, seen: Seen, paths: seq<Path>, target: Path, extensions: Option<set<string>>)
    requires KeptAt(d, seen, target) && TreeWalk(paths, target, extensions)
    requires paths != [] && Moves(paths[0], target, extensions)
    requires !FlattenStep(d, seen, paths[0], target, false, extensions).action.Failed?
    ensures var r := FlattenRun(d, seen, paths, target, false, extensions);
      var p0 := paths[0];
      r.report.Complete? ==>
        d.Find(p0).Some? && !r.disk.IsFile(p0) && Name(p0) in r.seen && r.seen[Name(p0)].size >= d.Find(p0).value.size
  {
    var p0 := paths[0];
    var rest := paths[1..];
    var s := FlattenStep(d, seen, p0, target, false, extensions);
    var r := FlattenRun(s.disk, s.seen, rest, target, false, extensions);
    assert r == FlattenRun(d, seen, paths, target, false, extensions);
    StepKeepsKept(d, seen, p0, target, extensions);
    TreeWalkTail(paths, target, extensions);
    RunKeepsKept(s.disk, s.seen, rest, target, extensions);
    StepHandles(d, seen, p0, target, extensions);
    forall n | n in s.seen ensures s.seen[n].path != p0 {
      OutsideTarget(p0, target, n);
    }
    forall p | p in rest && Moves(p, target, extensions)
      ensures p0 != p && !Under(p0, p) && !AtOrUnder(p0, target + [Name(p)])
    {
      OutsideTarget(p0, target, Name(p));
    }
    RunFrame(s.disk, s.seen, rest, target, false, extensions, p0);
  }

  /**
   * `flatten_folder` when not a dry run, on a real folder tree with the target
   * outside the files it moves: if it completes, every file that passed the
   * filter and was not directly in the target has left its folder, and
   * `target/name` holds a file at least as big as it.
   */
  lemma FlattenKeepsBigger(d: Disk, source: Path, target: Path, extensions: Option<set<string>>)
    requires TreeWalk(WalkAfterMakeDirs(d, source, target), target, extensions)
    ensures var r := FlattenSpec(d, source, target, false, extensions);
      r.report.Complete? ==>
        forall p | p in WalkAfterMakeDirs(d, source, target) && Moves(p, target, extensions) ::
          && d.Find(p).Some? && !r.disk.IsFile(p)
          && r.disk.Find(target + [Name(p)]).Some?
          && r.disk.Find(target + [Name(p)]).value.size >= d.Find(p).value.size
  {
    var paths := WalkAfterMakeDirs(d, source, target);
    RunKeepsKept(d.MakeDirs(target), map[], paths, target, extensions);
    RunKeepsBigger(d.MakeDirs(target), map[], paths, target, extensions);
  }
}

/**
 * folder_flatten.py: the same loop as `flatten_folder`, with the filter taken
 * from the module constant `EXTENSIONS` and a command line whose target
 * defaults to the folder "flattened" inside the source.
 */
module FolderFlatten {
  import opened Wrappers
  import opened FileSystem
  import Flatten

  /** `EXTENSIONS = None`: no extension filter. */
  const Extensions: Option<set<string>> := None

  /** With `EXTENSIONS = None` every file passes the filter. */
  lemma EveryFileAdmitted(name: string)
    ensures Flatten.Admitted(name, Extensions)
  {
  }

  /**
   * `main`: the target given on the command line, or `<source>/flattened` when
   * it is absent or empty (`if args.target` is false for "").
   */
  function TargetFolder(source: Path, target: Option<Path>): (t: Path)
    ensures target.None? || target.value == [] ==> Parent(t) == source && Name(t) == "flattened"
    ensures target.Some? && target.value != [] ==> t == target.value
  {
    if target.Some? && target.value != [] then target.value else source + ["flattened"]
  }

  method FlattenFolder(fs: FileSystem, source: Path, target: Path, dryRun: bool) returns (report: Flatten.Report)
    modifies fs
    ensures fs.Snapshot() == Flatten.FlattenSpec(old(fs.Snapshot()), source, target, dryRun, Extensions).disk
    ensures report == Flatten.FlattenSpec(old(fs.Snapshot()), source, target, dryRun, Extensions).report
  {
    report := Flatten.FlattenFolder(fs, source, target, dryRun, Extensions);
  }

  method Run(fs: FileSystem, source: Path, target: Option<Path>, dryRun: bool) returns (report: Flatten.Report)
    modifies fs
    ensures fs.Snapshot() == Flatten.FlattenSpec(old(fs.Snapshot()), source, TargetFolder(source, target), dryRun, Extensions).disk
    ensures report == Flatten.FlattenSpec(old(fs.Snapshot()), source, TargetFolder(source, target), dryRun, Extensions).report
  {
    report := FlattenFolder(fs, source, TargetFolder(source, target), dryRun);
  }
}

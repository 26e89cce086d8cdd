/**
 * An abstract file system: an ordered list of files, each with a record of what
 * the operating system and the foreign libraries would report about it, and a set
 * of directories. The order of the list stands for the order in which `os.walk`
 * yields the files. Everything the tools learn from EXIF readers, the imaging
 * library, MD5 hashing and `stat` is read from the file record, never computed.
 */
module FileSystem {
  import opened Wrappers
  import opened Dates

  /** A path as its components: `os.path.join(root, name)` is `root + [name]`. */
  type Path = seq<string>

  /** What opening, verifying and sizing the file with the imaging library gives. */
  datatype ImageProbe = Decoded(width: nat, height: nat) | Unreadable(reason: string)

  /** What the operating system and the libraries report about one file. */
  datatype FileInfo = FileInfo(
    size: nat,                 // os.path.getsize
    mtime: DateTime,           // datetime.fromtimestamp(os.path.getmtime(...))
    exif: Option<DateTime>,    // "EXIF DateTimeOriginal" parsed with "%Y:%m:%d %H:%M:%S"; None if absent or unreadable
    hash: string,              // MD5 hex digest of the contents; "" when the file cannot be read
    image: ImageProbe,         // Image.open + verify + size
    regular: bool,             // os.path.isfile
    statError: Option<string>, // the message of the OSError that getsize/getmtime raise, if they do
    locked: bool)              // os.utime and os.remove raise on this file

  datatype Entry = Entry(path: Path, info: FileInfo)

  /** `p` lies strictly inside directory `dir`. */
  predicate Under(p: Path, dir: Path) {
    |dir| < |p| && p[..|dir|] == dir
  }

  predicate AtOrUnder(p: Path, dir: Path) {
    |dir| <= |p| && p[..|dir|] == dir
  }

  /** `os.path.basename`. */
  function Name(p: Path): string {
    if p == [] then "" else p[|p| - 1]
  }

  /** The directory holding `p`: `os.path.dirname`. */
  function Parent(p: Path): Path {
    if p == [] then [] else p[..|p| - 1]
  }

  /** The path `p` takes when the tree at `src` is renamed to `dst`. */
  function Rebase(p: Path, src: Path, dst: Path): (q: Path)
    requires AtOrUnder(p, src)
    ensures AtOrUnder(q, dst) && |q| == |dst| + |p| - |src|
  {
    dst + p[|src|..]
  }

  /** Every proper, non-empty prefix of `p` is a directory. */
  predicate AncestorsIn(p: Path, dirs: set<Path>) {
    forall i | 1 <= i < |p| :: p[..i] in dirs
  }

  /** The file records of a list of entries, in order. */
  function Infos(es: seq<Entry>): (r: seq<FileInfo>)
    ensures |r| == |es|
  {
    if es == [] then [] else [es[0].info] + Infos(es[1..])
  }

  /** The files strictly inside `root`, in list order: what `os.walk(root)` yields. */
  function EntriesUnder(es: seq<Entry>, root: Path): (r: seq<Entry>)
    ensures |r| <= |es|
    ensures forall e | e in r :: e in es && Under(e.path, root)
    ensures forall e | e in es && Under(e.path, root) :: e in r
  {
    if es == [] then []
    else (if Under(es[0].path, root) then [es[0]] else []) + EntriesUnder(es[1..], root)
  }

  function MoveEntries(es: seq<Entry>, src: Path, dst: Path): (r: seq<Entry>)
    ensures |r| <= |es|
  {
    if es == [] then []
    else
      var e := es[0];
      (if AtOrUnder(e.path, src) then [Entry(Rebase(e.path, src, dst), e.info)]
       else if AtOrUnder(e.path, dst) then []
       else [e]) + MoveEntries(es[1..], src, dst)
  }

  function RemoveEntries(es: seq<Entry>, p: Path): (r: seq<Entry>)
    ensures |r| <= |es|
    ensures forall e | e in r :: e in es && e.path != p
    ensures forall e | e in es && e.path != p :: e in r
  {
    if es == [] then []
    else (if es[0].path == p then [] else [es[0]]) + RemoveEntries(es[1..], p)
  }

  function SetMtimeEntries(es: seq<Entry>, p: Path, t: DateTime): (r: seq<Entry>)
    ensures |r| == |es|
    ensures forall i | 0 <= i < |es| :: r[i].path == es[i].path
    ensures forall i | 0 <= i < |es| :: r[i].info == if es[i].path == p then es[i].info.(mtime := t) else es[i].info
  {
    seq(|es|, i requires 0 <= i < |es| =>
      if es[i].path == p then Entry(p, es[i].info.(mtime := t)) else es[i])
  }

  /** The paths of a list of entries, in order. */
  function Paths(es: seq<Entry>): (r: seq<Path>)
    ensures |r| == |es| && forall i | 0 <= i < |es| :: r[i] == es[i].path
  {
    seq(|es|, i requires 0 <= i < |es| => es[i].path)
  }

  /**
   * A snapshot of the whole file system. `pinned` holds the directories that
   * `os.rmdir` cannot remove even when they are empty (a mount point, or a
   * parent without write permission).
   */
  datatype Disk = Disk(files: seq<Entry>, dirs: set<Path>, pinned: set<Path>) {

    /** Every ancestor of every file and directory is a directory. */
    predicate Valid() {
      && (forall e | e in files :: AncestorsIn(e.path, dirs))
      && (forall q | q in dirs :: AncestorsIn(q, dirs))
    }

    predicate IsFile(p: Path) {
      exists e | e in files :: e.path == p
    }

    /** The record of the first file at `p`, if there is one. */
    function Find(p: Path): (r: Option<FileInfo>)
      ensures r.Some? <==> IsFile(p)
      ensures r.Some? ==> Entry(p, r.value) in files
    {
      FindIn(files, p)
    }

    predicate IsDir(p: Path) {
      p in dirs
    }

    /** `os.path.exists`. */
    predicate Exists(p: Path) {
      IsFile(p) || IsDir(p)
    }

    /** `os.listdir(p)` is empty: no file and no directory directly or indirectly inside. */
    predicate Empty(p: Path) {
      (forall e | e in files :: !Under(e.path, p)) && (forall q | q in dirs :: !Under(q, p))
    }

    function Walk(root: Path): seq<Entry> {
      EntriesUnder(files, root)
    }

    /** `os.makedirs(p, exist_ok=True)`: `p` and every ancestor become directories. */
    function MakeDirs(p: Path): (d: Disk)
      ensures d.files == files
      ensures forall i | 1 <= i <= |p| :: d.IsDir(p[..i])
    {
      this.(dirs := dirs + (set i | 1 <= i <= |p| :: p[..i]))
    }

    /**
     * `shutil.move(src, dst)` as a rename: the file or tree at `src` is found at
     * `dst` afterwards and anything that was at `dst` is replaced. Moving a tree
     * into itself raises in the source; here it leaves the disk unchanged.
     */
    function Move(src: Path, dst: Path): Disk {
      if AtOrUnder(dst, src) then this
      else this.(
        files := MoveEntries(files, src, dst),
        dirs := (set q | q in dirs && !AtOrUnder(q, src) && !AtOrUnder(q, dst))
          + (set q | q in dirs && AtOrUnder(q, src) :: Rebase(q, src, dst)))
    }

    /** `os.remove(p)`. */
    function Remove(p: Path): (d: Disk)
      ensures d.dirs == dirs && !d.IsFile(p)
    {
      this.(files := RemoveEntries(files, p))
    }

    /** `os.rmdir(p)` raises: `p` is no directory, is not empty, or is pinned. */
    predicate RemoveDirFails(p: Path) {
      !IsDir(p) || !Empty(p) || p in pinned
    }

    /** `os.rmdir(p)` when it succeeds. */
    function RemoveDir(p: Path): (d: Disk)
      ensures d.files == files && !d.IsDir(p)
    {
      this.(dirs := dirs - {p})
    }

    /** `os.utime(p, (t, t))`: only the modification time of the file at `p` changes. */
    function SetMtime(p: Path, t: DateTime): (d: Disk)
      ensures d.dirs == dirs && Infos(d.files) == Infos(SetMtimeEntries(files, p, t))
    {
      this.(files := SetMtimeEntries(files, p, t))
    }
  }

  function FindIn(es: seq<Entry>, p: Path): (r: Option<FileInfo>)
    ensures r.Some? <==> exists e | e in es :: e.path == p
    ensures r.Some? ==> Entry(p, r.value) in es
  {
    if es == [] then None
    else if es[0].path == p then Some(es[0].info)
    else FindIn(es[1..], p)
  }

  // ------------------------------------------------------------ properties

  /** When nothing sits at or under `dst`, moving keeps every file record, in order. */
  lemma {:induction false} MoveEntriesKeepsInfos(es: seq<Entry>, src: Path, dst: Path)
    requires forall e | e in es :: AtOrUnder(e.path, src) || !AtOrUnder(e.path, dst)
    ensures Infos(MoveEntries(es, src, dst)) == Infos(es)
  {
    if es != [] {
      assert es[0] in es;
      MoveEntriesCons(es, src, dst);
      MoveEntriesKeepsInfos(es[1..], src, dst);
    }
  }

  /** Moving a list whose first file is not displaced by the move puts that file's record first. */
  lemma MoveEntriesCons(es: seq<Entry>, src: Path, dst: Path)
    requires es != [] && (AtOrUnder(es[0].path, src) || !AtOrUnder(es[0].path, dst))
    ensures Infos(MoveEntries(es, src, dst)) == [es[0].info] + Infos(MoveEntries(es[1..], src, dst))
  {
    var e := es[0];
    var head := if AtOrUnder(e.path, src) then Entry(Rebase(e.path, src, dst), e.info) else e;
    var moved := [head] + MoveEntries(es[1..], src, dst);
    assert MoveEntries(es, src, dst) == moved;
    assert moved[0] == head && moved[1..] == MoveEntries(es[1..], src, dst);
  }

  lemma {:induction false} MoveEntriesMembers(es: seq<Entry>, src: Path, dst: Path)
    ensures forall e | e in MoveEntries(es, src, dst) ::
      (!AtOrUnder(e.path, src) && !AtOrUnder(e.path, dst) && e in es)
      || (exists f | f in es && AtOrUnder(f.path, src) :: e == Entry(Rebase(f.path, src, dst), f.info))
  {
    if es != [] {
      MoveEntriesMembers(es[1..], src, dst);
    }
  }

  /** On a valid disk, nothing lies under a path that does not exist. */
  lemma NothingUnderMissing(d: Disk, p: Path)
    requires d.Valid() && p != [] && !d.Exists(p)
    ensures forall e | e in d.files :: !AtOrUnder(e.path, p)
    ensures forall q | q in d.dirs :: !AtOrUnder(q, p)
  {
    forall e | e in d.files ensures !AtOrUnder(e.path, p) {
      if |e.path| > |p| {
        assert e.path[..|p|] in d.dirs;
      } else if |e.path| == |p| {
        assert e.path[..|p|] == e.path;
      }
    }
    forall q | q in d.dirs ensures !AtOrUnder(q, p) {
      if |q| > |p| {
        assert q[..|p|] in d.dirs;
      } else if |q| == |p| {
        assert q[..|p|] == q;
      }
    }
  }

  /**
   * Renaming onto a path that does not exist, whose parent directories do, keeps
   * the disk valid and loses, duplicates or overwrites no file: the list of file
   * records is exactly what it was.
   */
  lemma MoveToFreshPath(d: Disk, src: Path, dst: Path)
    requires d.Valid() && src != [] && dst != [] && !d.Exists(dst) && AncestorsIn(dst, d.dirs)
    ensures d.Move(src, dst).Valid()
    ensures Infos(d.Move(src, dst).files) == Infos(d.files)
  {
    if !AtOrUnder(dst, src) {
      NothingUnderMissing(d, dst);
      MoveEntriesKeepsInfos(d.files, src, dst);
      MoveEntriesMembers(d.files, src, dst);
      var m := d.Move(src, dst);
      forall q | q in d.dirs && AtOrUnder(q, src) ensures AncestorsIn(Rebase(q, src, dst), m.dirs) {
        RebasedAncestors(d, src, dst, q);
      }
      forall e | e in m.files ensures AncestorsIn(e.path, m.dirs) {
        if !AtOrUnder(e.path, src) && !AtOrUnder(e.path, dst) && e in d.files {
          KeptAncestors(d, src, dst, e.path);
        } else {
          var f :| f in d.files && AtOrUnder(f.path, src) && e == Entry(Rebase(f.path, src, dst), f.info);
          RebasedAncestors(d, src, dst, f.path);
        }
      }
      forall q | q in m.dirs ensures AncestorsIn(q, m.dirs) {
        if q in d.dirs && !AtOrUnder(q, src) && !AtOrUnder(q, dst) {
          KeptAncestors(d, src, dst, q);
        } else {
          var r :| r in d.dirs && AtOrUnder(r, src) && q == Rebase(r, src, dst);
          RebasedAncestors(d, src, dst, r);
        }
      }
    }
  }

  /** The ancestors of a path left in place survive the move. */
  /** Every file at or under `src` is found, with its record, at its rebased path. */
  lemma {:induction false} MoveEntriesRebases(es: seq<Entry>, src: Path, dst: Path, f: Entry)
    requires f in es && AtOrUnder(f.path, src)
    ensures Entry(Rebase(f.path, src, dst), f.info) in MoveEntries(es, src, dst)
  {
    if es[0] != f {
      MoveEntriesRebases(es[1..], src, dst, f);
    }
  }

  /** After moving a file or tree to `dst` (not inside itself), every file of it is found at its new path. */
  lemma MoveArrives(d: Disk, src: Path, dst: Path)
    requires !AtOrUnder(dst, src)
    ensures forall f | f in d.files && AtOrUnder(f.path, src) :: Entry(Rebase(f.path, src, dst), f.info) in d.Move(src, dst).files
    ensures d.IsFile(src) ==> d.Move(src, dst).IsFile(dst)
  {
    forall f | f in d.files && AtOrUnder(f.path, src)
      ensures Entry(Rebase(f.path, src, dst), f.info) in d.Move(src, dst).files
    {
      MoveEntriesRebases(d.files, src, dst, f);
    }
    if d.IsFile(src) {
      var f :| f in d.files && f.path == src;
      assert Rebase(f.path, src, dst) == dst;
    }
  }

  lemma SetMtimeEntriesTail(es: seq<Entry>, p: Path, t: DateTime)
    requires es != []
    ensures SetMtimeEntries(es, p, t)[1..] == SetMtimeEntries(es[1..], p, t)
    ensures SetMtimeEntries(es, p, t)[0].path == es[0].path
  {
  }

  /** Changing a modification time changes no path: a walk lists the same paths afterwards. */
  lemma {:induction false} SetMtimeKeepsWalk(es: seq<Entry>, p: Path, t: DateTime, root: Path)
    ensures Paths(EntriesUnder(SetMtimeEntries(es, p, t), root)) == Paths(EntriesUnder(es, root))
  {
    if es != [] {
      SetMtimeEntriesTail(es, p, t);
      SetMtimeKeepsWalk(es[1..], p, t, root);
      var s := SetMtimeEntries(es, p, t);
      var a := if Under(s[0].path, root) then [s[0]] else [];
      var b := if Under(es[0].path, root) then [es[0]] else [];
      assert EntriesUnder(s, root) == a + EntriesUnder(s[1..], root);
      assert EntriesUnder(es, root) == b + EntriesUnder(es[1..], root);
      assert Paths(a) == Paths(b);
      PathsAppend(a, EntriesUnder(s[1..], root));
      PathsAppend(b, EntriesUnder(es[1..], root));
    }
  }

  lemma PathsAppend(a: seq<Entry>, b: seq<Entry>)
    ensures Paths(a + b) == Paths(a) + Paths(b)
  {
  }

  /**
   * After `os.utime(p, ...)` the record found at `p` differs only in its
   * modification time, and the record found at any other path is unchanged.
   */
  lemma {:induction false} FindAfterSetMtime(es: seq<Entry>, p: Path, t: DateTime, q: Path)
    ensures FindIn(SetMtimeEntries(es, p, t), q)
      == if q == p && FindIn(es, q).Some? then Some(FindIn(es, q).value.(mtime := t)) else FindIn(es, q)
  {
    if es != [] {
      SetMtimeEntriesTail(es, p, t);
      FindAfterSetMtime(es[1..], p, t, q);
    }
  }

  /** After `os.remove(p)` nothing is found at `p` and every other record is found as before. */
  lemma {:induction false} FindAfterRemove(es: seq<Entry>, p: Path, q: Path)
    ensures FindIn(RemoveEntries(es, p), q) == if q == p then None else FindIn(es, q)
  {
    if es != [] {
      var rest := RemoveEntries(es[1..], p);
      FindAfterRemove(es[1..], p, q);
      if es[0].path == p {
        assert RemoveEntries(es, p) == rest;
      } else {
        var r := [es[0]] + rest;
        assert RemoveEntries(es, p) == r;
        assert r[0] == es[0] && r[1..] == rest;
      }
    }
  }

  /**
   * After renaming `src` to `dst`, the record first found at `src` is found at
   * `dst`, nothing is left at `src` (unless `src` lies inside `dst`), and every
   * path outside both trees is found as before.
   */
  lemma {:induction false} FindAfterMove(es: seq<Entry>, src: Path, dst: Path, q: Path)
    requires !AtOrUnder(dst, src)
    ensures q == dst ==> FindIn(MoveEntries(es, src, dst), q) == FindIn(es, src)
    ensures q == src && !AtOrUnder(src, dst) ==> FindIn(MoveEntries(es, src, dst), q).None?
    ensures !AtOrUnder(q, src) && !AtOrUnder(q, dst) ==> FindIn(MoveEntries(es, src, dst), q) == FindIn(es, q)
  {
    if es != [] {
      var e := es[0];
      var rest := MoveEntries(es[1..], src, dst);
      FindAfterMove(es[1..], src, dst, q);
      if AtOrUnder(e.path, src) {
        var r := [Entry(Rebase(e.path, src, dst), e.info)] + rest;
        assert MoveEntries(es, src, dst) == r;
        assert r[0] == Entry(Rebase(e.path, src, dst), e.info) && r[1..] == rest;
        if e.path != src {
          assert |Rebase(e.path, src, dst)| > |dst|;
        }
      } else if AtOrUnder(e.path, dst) {
        assert MoveEntries(es, src, dst) == rest;
      } else {
        var r := [e] + rest;
        assert MoveEntries(es, src, dst) == r;
        assert r[0] == e && r[1..] == rest;
      }
    }
  }

  lemma KeptAncestors(d: Disk, src: Path, dst: Path, p: Path)
    requires d.Valid() && !AtOrUnder(dst, src) && AncestorsIn(p, d.dirs)
    requires !AtOrUnder(p, src) && !AtOrUnder(p, dst)
    ensures AncestorsIn(p, d.Move(src, dst).dirs)
  {
    forall i | 1 <= i < |p| ensures p[..i] in d.Move(src, dst).dirs {
      var a := p[..i];
      assert a in d.dirs;
    }
  }

  /** The ancestors of a moved path are the new parents of `dst` or moved directories. */
  lemma RebasedAncestors(d: Disk, src: Path, dst: Path, p: Path)
    requires d.Valid() && src != [] && dst != [] && !d.Exists(dst) && AncestorsIn(dst, d.dirs)
    requires !AtOrUnder(dst, src) && AtOrUnder(p, src)
    requires AncestorsIn(p, d.dirs)
    requires |p| > |src| ==> src in d.dirs
    ensures AncestorsIn(Rebase(p, src, dst), d.Move(src, dst).dirs)
  {
    NothingUnderMissing(d, dst);
    var q := Rebase(p, src, dst);
    var m := d.Move(src, dst);
    forall i | 1 <= i < |q| ensures q[..i] in m.dirs {
      if i < |dst| {
        var a := dst[..i];
        assert q[..i] == a;
        assert a in d.dirs;
        assert !AtOrUnder(a, dst);
      } else {
        var j := |src| + (i - |dst|);
        var a := p[..j];
        assert a in d.dirs by {
          if j == |src| {
            assert a == src;
          }
        }
        assert AtOrUnder(a, src);
        assert q[..i] == Rebase(a, src, dst);
      }
    }
  }

  /** Creating directories keeps the disk valid and the files as they are. */
  lemma MakeDirsValid(d: Disk, p: Path)
    requires d.Valid()
    ensures d.MakeDirs(p).Valid() && d.MakeDirs(p).files == d.files
    ensures AncestorsIn(p + [Name(p)], d.MakeDirs(p).dirs) || p == []
  {
    var m := d.MakeDirs(p);
    forall q | q in m.dirs ensures AncestorsIn(q, m.dirs) {
      if q !in d.dirs {
        var k :| 1 <= k <= |p| && q == p[..k];
        forall i | 1 <= i < |q| ensures q[..i] in m.dirs {
          assert q[..i] == p[..i];
        }
      }
    }
    forall e | e in m.files ensures AncestorsIn(e.path, m.dirs) {
    }
    if p != [] {
      forall i | 1 <= i < |p + [Name(p)]| ensures (p + [Name(p)])[..i] in m.dirs {
        assert (p + [Name(p)])[..i] == p[..i];
      }
    }
  }

  /** Removing a file or an empty directory keeps the disk valid. */
  lemma RemoveValid(d: Disk, p: Path)
    requires d.Valid()
    ensures d.Remove(p).Valid()
  {
  }

  lemma RemoveDirValid(d: Disk, p: Path)
    requires d.Valid() && d.Empty(p)
    ensures d.RemoveDir(p).Valid()
  {
    var r := d.RemoveDir(p);
    forall q | q in r.dirs ensures AncestorsIn(q, r.dirs) {
      forall i | 1 <= i < |q| ensures q[..i] in r.dirs {
      }
    }
    forall e | e in r.files ensures AncestorsIn(e.path, r.dirs) {
      forall i | 1 <= i < |e.path| ensures e.path[..i] in r.dirs {
      }
    }
  }

  /**
   * The file system as a mutable object: the tools change it step by step. Each
   * operation's new state is the corresponding `Disk` function of the old one.
   */
  class FileSystem {
    var files: seq<Entry>
    var dirs: set<Path>
    var pinned: set<Path>

    constructor (d: Disk)
      ensures Snapshot() == d
    {
      files := d.files;
      dirs := d.dirs;
      pinned := d.pinned;
    }

    function Snapshot(): Disk
      reads this
    {
      Disk(files, dirs, pinned)
    }

    method MakeDirs(p: Path)
      modifies this
      ensures Snapshot() == old(Snapshot()).MakeDirs(p)
    {
      dirs := Snapshot().MakeDirs(p).dirs;
    }

    method Move(src: Path, dst: Path)
      modifies this
      ensures Snapshot() == old(Snapshot()).Move(src, dst)
    {
      var d := Snapshot().Move(src, dst);
      files, dirs := d.files, d.dirs;
    }

    method Remove(p: Path)
      modifies this
      ensures Snapshot() == old(Snapshot()).Remove(p)
    {
      files := RemoveEntries(files, p);
    }

    method RemoveDir(p: Path)
      modifies this
      ensures Snapshot() == old(Snapshot()).RemoveDir(p)
    {
      dirs := dirs - {p};
    }

    method SetMtime(p: Path, t: DateTime)
      modifies this
      ensures Snapshot() == old(Snapshot()).SetMtime(p, t)
    {
      files := SetMtimeEntries(files, p, t);
    }
  }
}

/**
 * The folder statistics of `get_folder_stats`: walking bottom-up, each folder's
 * `Stats` is the count of its own non-hidden files by kind plus the `Stats` of
 * every child folder already recorded.
 */
module FolderCounts {
  import opened FileSystem
  import opened Text
  import opened Media
  import opened Common
  import opened Constants

  /** The stand-alone script's own copies of the extension sets. */
  const ScriptPhotoExt: set<string> := {".jpg", ".jpeg", ".png", ".heic", ".tif", ".tiff", ".nef", ".cr2", ".arw"}
  const ScriptVideoExt: set<string> := {".mp4", ".mov", ".avi", ".mkv", ".mts"}

  /** The script's copies are the shared sets, so both versions count alike. */
  lemma ScriptExtensionsAgree()
    ensures ScriptPhotoExt == PhotoExt && ScriptVideoExt == VideoExt
  {
  }

  /** One triple `(root, dirs, files)` yielded by `os.walk(..., topdown=False)`. */
  datatype WalkStep = WalkStep(dir: Path, subdirs: seq<string>, files: seq<string>)

  /** How one file name counts: hidden names not at all, others by `Path(name).suffix.lower()`. */
  function CountOf(name: string): Counts {
    if IsHidden(name) then Zero else Tally(KindOfExt(Lower(Suffix(name))))
  }

  /** A hidden name counts nothing; any other adds one to exactly one counter. */
  lemma CountOfTotal(name: string)
    ensures CountOf(name).Total() == if IsHidden(name) then 0 else 1
  {
  }

  /** A visible file is counted under the same kind the other tools give it. */
  lemma CountOfKind(name: string)
    requires !IsHidden(name)
    ensures CountOf(name) == Tally(KindOf(name))
  {
    SuffixKindAgrees(name);
  }

  /** The counts of the files listed directly in one folder. */
  function LocalCounts(files: seq<string>): Counts {
    if files == [] then Zero else LocalCounts(files[..|files| - 1]).Plus(CountOf(files[|files| - 1]))
  }

  /** How many of `names` are not hidden. */
  function VisibleCount(names: seq<string>): nat {
    if names == [] then 0
    else VisibleCount(names[..|names| - 1]) + if IsHidden(names[|names| - 1]) then 0 else 1
  }

  /** The last file's counts add to the rest's, in the total and in the visible count alike. */
  lemma LocalCountsSnoc(files: seq<string>)
    requires files != []
    ensures var init, last := files[..|files| - 1], files[|files| - 1];
      && LocalCounts(files).Total() == LocalCounts(init).Total() + CountOf(last).Total()
      && VisibleCount(files) == VisibleCount(init) + if IsHidden(last) then 0 else 1
  {
  }

  /** Hidden files are not counted; every other file adds one to exactly one counter. */
  lemma {:induction false} LocalCountsTotal(files: seq<string>)
    ensures LocalCounts(files).Total() == VisibleCount(files)
  {
    if files != [] {
      LocalCountsTotal(files[..|files| - 1]);
      CountOfTotal(files[|files| - 1]);
      LocalCountsSnoc(files);
    }
  }

  /** `acc` plus the recorded `Stats` of each child of `dir` named in `names`, in order. */
  function ChildSum(m: map<Path, Counts>, dir: Path, names: seq<string>, acc: Counts): Counts
  {
    if names == [] then acc
    else
      var child := dir + [names[0]];
      ChildSum(m, dir, names[1..], if child in m then acc.Plus(m[child]) else acc)
  }

  /** The dictionary after recording one walk step. */
  function Record(m: map<Path, Counts>, s: WalkStep): map<Path, Counts> {
    m[s.dir := ChildSum(m, s.dir, s.subdirs, LocalCounts(s.files))]
  }

  /** The dictionary after recording every step of `walk`, starting from `m`. */
  function AggFrom(m: map<Path, Counts>, walk: seq<WalkStep>): map<Path, Counts>
    decreases |walk|
  {
    if walk == [] then m else AggFrom(Record(m, walk[0]), walk[1..])
  }

  /** What `get_folder_stats` returns, as values. */
  function Aggregate(walk: seq<WalkStep>): map<Path, Counts> {
    AggFrom(map[], walk)
  }

  /** A fresh `Stats` holding the counts of the files listed in one folder. */
  method CountFiles(files: seq<string>) returns (current: Stats)
    ensures fresh(current)
    ensures current.Value() == LocalCounts(files)
  {
    current := new Stats();
    var j := 0;
    while j < |files|
      invariant 0 <= j <= |files|
      invariant current.Value() == LocalCounts(files[..j])
    {
      var name := files[j];
      assert files[..j + 1][..j] == files[..j];
      assert LocalCounts(files[..j + 1]) == LocalCounts(files[..j]).Plus(CountOf(name));
      if !IsHidden(name) {
        var kind := KindOfExt(Lower(Suffix(name)));
        current.Count(kind);
      } else {
        PlusZero(current.Value());
      }
      j := j + 1;
    }
    assert files[..j] == files;
  }

  /** `get_folder_stats(root)`, given the bottom-up walk of `root`. */
  method GetFolderStats(walk: seq<WalkStep>) returns (stats: map<Path, Stats>)
    ensures stats.Keys == Aggregate(walk).Keys
    ensures forall p | p in stats :: stats[p].Value() == Aggregate(walk)[p]
  {
    stats := map[];
    ghost var done: map<Path, Counts> := map[];
    var i := 0;
    while i < |walk|
      invariant 0 <= i <= |walk|
      invariant AggFrom(done, walk[i..]) == Aggregate(walk)
      invariant stats.Keys == done.Keys
      invariant forall p | p in stats :: stats[p].Value() == done[p]
    {
      var step := walk[i];
      var current := CountFiles(step.files);
      var k := 0;
      while k < |step.subdirs|
        invariant 0 <= k <= |step.subdirs|
        invariant ChildSum(done, step.dir, step.subdirs[k..], current.Value())
          == ChildSum(done, step.dir, step.subdirs, LocalCounts(step.files))
        invariant fresh(current)
        invariant forall p | p in stats :: stats[p] != current && stats[p].Value() == done[p]
      {
        var child := step.dir + [step.subdirs[k]];
        assert step.subdirs[k..][1..] == step.subdirs[k + 1..];
        if child in stats {
          current := current.AddAssign(stats[child]);
        }
        k := k + 1;
      }
      stats := stats[step.dir := current];
      assert walk[i..][1..] == walk[i + 1..];
      done := Record(done, step);
      i := i + 1;
    }
  }

  // ------------------------------------------------------------ properties

  lemma {:induction false} AggFromKeys(m: map<Path, Counts>, walk: seq<WalkStep>)
    ensures AggFrom(m, walk).Keys == m.Keys + set s | s in walk :: s.dir
    decreases |walk|
  {
    if walk != [] {
      AggFromKeys(Record(m, walk[0]), walk[1..]);
      assert walk == [walk[0]] + walk[1..];
    }
  }

  /** Every folder the walk visits, and no other, gets an entry. */
  lemma AggregateKeys(walk: seq<WalkStep>)
    ensures Aggregate(walk).Keys == set s | s in walk :: s.dir
  {
    AggFromKeys(map[], walk);
  }

  lemma {:induction false} AggFromAppend(m: map<Path, Counts>, a: seq<WalkStep>, b: seq<WalkStep>)
    ensures AggFrom(m, a + b) == AggFrom(AggFrom(m, a), b)
    decreases |a|
  {
    if a != [] {
      assert (a + b)[0] == a[0];
      assert (a + b)[1..] == a[1..] + b;
      AggFromAppend(Record(m, a[0]), a[1..], b);
    } else {
      assert a + b == b;
    }
  }

  /**
   * A folder tree: its files by name and its child folders. Hidden child folders
   * are folders like any other.
   */
  datatype Tree = Folder(name: string, files: seq<string>, children: seq<Tree>)

  /** Child folders of one folder have distinct names, at every level. */
  predicate DistinctNames(t: Tree) {
    && (forall i, j | 0 <= i < j < |t.children| :: t.children[i].name != t.children[j].name)
    && (forall i | 0 <= i < |t.children| :: DistinctNames(t.children[i]))
  }

  function ChildNames(t: Tree): (r: seq<string>)
    ensures |r| == |t.children| && forall i | 0 <= i < |r| :: r[i] == t.children[i].name
  {
    seq(|t.children|, i requires 0 <= i < |t.children| => t.children[i].name)
  }

  /** The bottom-up walk of the tree `t` stored at `p`: children first, then the folder itself. */
  function PostOrder(p: Path, t: Tree): seq<WalkStep>
    decreases t, |t.children| + 1
  {
    ChildrenWalk(p, t, 0) + [WalkStep(p, ChildNames(t), t.files)]
  }

  function ChildrenWalk(p: Path, t: Tree, i: nat): seq<WalkStep>
    requires i <= |t.children|
    decreases t, |t.children| - i
  {
    if i == |t.children| then []
    else PostOrder(p + [t.children[i].name], t.children[i]) + ChildrenWalk(p, t, i + 1)
  }

  /** Every non-hidden file anywhere in the tree, counted by kind. */
  function Total(t: Tree): Counts
    decreases t, |t.children| + 1
  {
    SumChildren(t, 0, LocalCounts(t.files))
  }

  function SumChildren(t: Tree, i: nat, acc: Counts): Counts
    requires i <= |t.children|
    decreases t, |t.children| - i
  {
    if i == |t.children| then acc else SumChildren(t, i + 1, acc.Plus(Total(t.children[i])))
  }

  /** `m` and `r` agree on key `k`. */
  predicate SameAt(m: map<Path, Counts>, r: map<Path, Counts>, k: Path) {
    (k in m <==> k in r) && (k in m ==> m[k] == r[k])
  }

  lemma {:induction false} ChildSumMatches(m: map<Path, Counts>, p: Path, t: Tree, i: nat, acc: Counts)
    requires i <= |t.children|
    requires forall j | i <= j < |t.children| ::
      p + [t.children[j].name] in m && m[p + [t.children[j].name]] == Total(t.children[j])
    ensures ChildSum(m, p, ChildNames(t)[i..], acc) == SumChildren(t, i, acc)
    decreases |t.children| - i
  {
    if i < |t.children| {
      assert ChildNames(t)[i..][1..] == ChildNames(t)[i + 1..];
      ChildSumMatches(m, p, t, i + 1, acc.Plus(Total(t.children[i])));
    }
  }

  /**
   * Recording the bottom-up walk of a tree stored at `p` gives `p` the count of
   * the whole tree, and changes no entry outside the tree.
   */
  lemma {:induction false} TreeAggregate(m: map<Path, Counts>, p: Path, t: Tree)
    requires DistinctNames(t)
    ensures p in AggFrom(m, PostOrder(p, t))
    ensures AggFrom(m, PostOrder(p, t))[p] == Total(t)
    ensures forall k | !AtOrUnder(k, p) :: SameAt(m, AggFrom(m, PostOrder(p, t)), k)
    decreases t, |t.children| + 1
  {
    var step := WalkStep(p, ChildNames(t), t.files);
    AggFromAppend(m, ChildrenWalk(p, t, 0), [step]);
    ChildrenAggregate(m, p, t, 0);
    var m1 := AggFrom(m, ChildrenWalk(p, t, 0));
    assert ChildNames(t)[0..] == ChildNames(t);
    ChildSumMatches(m1, p, t, 0, LocalCounts(t.files));
    assert AggFrom(m1, [step]) == Record(m1, step) by {
      assert [step][1..] == [];
    }
    forall k | !AtOrUnder(k, p) ensures SameAt(m, AggFrom(m, PostOrder(p, t)), k) {
      assert !Under(k, p);
    }
  }

  /**
   * Recording the walks of children `i..` of `t` gives each of them its count and
   * changes no entry outside their subtrees.
   */
  lemma {:induction false} ChildrenAggregate(m: map<Path, Counts>, p: Path, t: Tree, i: nat)
    requires DistinctNames(t) && i <= |t.children|
    ensures forall j | i <= j < |t.children| ::
      var key := p + [t.children[j].name];
      key in AggFrom(m, ChildrenWalk(p, t, i)) && AggFrom(m, ChildrenWalk(p, t, i))[key] == Total(t.children[j])
    ensures forall k | !(Under(k, p) && k[|p|] in ChildNames(t)[i..]) :: SameAt(m, AggFrom(m, ChildrenWalk(p, t, i)), k)
    decreases t, |t.children| - i
  {
    if i < |t.children| {
      var c := t.children[i];
      var cp := p + [c.name];
      AggFromAppend(m, PostOrder(cp, c), ChildrenWalk(p, t, i + 1));
      TreeAggregate(m, cp, c);
      var m1 := AggFrom(m, PostOrder(cp, c));
      ChildrenAggregate(m1, p, t, i + 1);
      var r := AggFrom(m, ChildrenWalk(p, t, i));
      assert r == AggFrom(m1, ChildrenWalk(p, t, i + 1));
      assert !(Under(cp, p) && cp[|p|] in ChildNames(t)[i + 1..]) by {
        assert cp[|p|] == c.name;
        forall j | i + 1 <= j < |t.children| ensures ChildNames(t)[j] != c.name {}
      }
      forall k | !(Under(k, p) && k[|p|] in ChildNames(t)[i..]) ensures SameAt(m, r, k) {
        OutsideChildren(k, p, t, i);
      }
    }
  }

  /** A path outside the subtrees of children `i..` is outside child `i` and outside children `i + 1..`. */
  lemma OutsideChildren(k: Path, p: Path, t: Tree, i: nat)
    requires i < |t.children|
    requires !(Under(k, p) && k[|p|] in ChildNames(t)[i..])
    ensures !AtOrUnder(k, p + [t.children[i].name])
    ensures !(Under(k, p) && k[|p|] in ChildNames(t)[i + 1..])
  {
    assert ChildNames(t)[i..] == [t.children[i].name] + ChildNames(t)[i + 1..];
  }

  /** The root of a tree's bottom-up walk is recorded with the count of the whole tree. */
  lemma RootTotal(p: Path, t: Tree)
    requires DistinctNames(t)
    ensures p in Aggregate(PostOrder(p, t)) && Aggregate(PostOrder(p, t))[p] == Total(t)
  {
    TreeAggregate(map[], p, t);
  }
}

/**
 * Duplicate removal: visible regular files are grouped by the hash of their
 * contents; in every group of two or more, the file with the shortest path is
 * kept and the others are deleted, unless this is a dry run.
 */
module Dedupe {
  import opened Wrappers
  import opened Media
  import opened FileSystem

  // ------------------------------------------------------------ paths as text

  /** `os.path.join` of the components: a separator is added unless the text already ends in one. */
  function PathText(p: Path): string {
    if p == [] then ""
    else
      var t := PathText(p[..|p| - 1]);
      var c := p[|p| - 1];
      if t == [] then c else if t[|t| - 1] == '/' then t + c else t + "/" + c
  }

  /** `len(path)`, the key the groups are sorted by. */
  function PathLength(p: Path): nat {
    |PathText(p)|
  }

  // ------------------------------------------------------------ finding duplicates

  /** A walked file enters the hash map iff its name is visible, it is a regular file and it could be hashed. */
  predicate Eligible(e: Entry) {
    !IsHidden(Name(e.path)) && e.info.regular && e.info.hash != ""
  }

  /** The hashes in order of first appearance, as the insertion order of `hash_map`. */
  function HashOrder(es: seq<Entry>): seq<string> {
    if es == [] then []
    else
      var order := HashOrder(es[..|es| - 1]);
      var e := es[|es| - 1];
      if !Eligible(e) || e.info.hash in order then order else order + [e.info.hash]
  }

  /** `hash_map[h]`: the eligible paths with hash `h`, in walk order. */
  function WithHash(es: seq<Entry>, h: string): seq<Path> {
    if es == [] then []
    else
      var e := es[|es| - 1];
      WithHash(es[..|es| - 1], h) + if Eligible(e) && e.info.hash == h then [e.path] else []
  }

  function HashGroups(es: seq<Entry>): map<string, seq<Path>> {
    map h | h in HashOrder(es) :: WithHash(es, h)
  }

  predicate DistinctHashes(hs: seq<string>) {
    forall i, j | 0 <= i < j < |hs| :: hs[i] != hs[j]
  }

  /** The hash order lists each hash once, and exactly the hashes of the eligible files. */
  lemma {:induction false} HashOrderExact(es: seq<Entry>)
    ensures DistinctHashes(HashOrder(es))
    ensures forall h :: h in HashOrder(es) <==> WithHash(es, h) != []
  {
    if es != [] {
      HashOrderExact(es[..|es| - 1]);
    }
  }

  /** A set of files with the same contents. */
  datatype DupSet = DupSet(hash: string, paths: seq<Path>)

  /** `{h: paths for h, paths in hash_map.items() if len(paths) > 1}`, in insertion order. */
  function KeepRepeated(order: seq<string>, groups: map<string, seq<Path>>): (r: seq<DupSet>)
    requires forall h | h in order :: h in groups
    ensures forall s | s in r :: s.hash in order && s.hash in groups && s.paths == groups[s.hash] && |s.paths| > 1
  {
    if order == [] then []
    else
      var h := order[|order| - 1];
      KeepRepeated(order[..|order| - 1], groups) + if |groups[h]| > 1 then [DupSet(h, groups[h])] else []
  }

  /** `find_duplicates(root)` on the files of the walk. */
  function Duplicates(es: seq<Entry>): seq<DupSet> {
    KeepRepeated(HashOrder(es), HashGroups(es))
  }

  method FindDuplicates(es: seq<Entry>) returns (dups: seq<DupSet>)
    ensures dups == Duplicates(es)
  {
    var order: seq<string> := [];
    var hashMap: map<string, seq<Path>> := map[];
    var i := 0;
    while i < |es|
      invariant 0 <= i <= |es|
      invariant order == HashOrder(es[..i])
      invariant hashMap == HashGroups(es[..i])
    {
      HashGroupsStep(es, i);
      var e := es[i];
      if !IsHidden(Name(e.path)) && e.info.regular {
        var h := e.info.hash;
        if h != "" {
          if h !in hashMap {
            HashOrderExact(es[..i]);
            order := order + [h];
            hashMap := hashMap[h := []];
          }
          hashMap := hashMap[h := hashMap[h] + [e.path]];
        }
      }
      i := i + 1;
    }
    assert es[..i] == es;
    dups := KeepRepeated(order, hashMap);
  }

  /** One more file appends its hash to the order at the hash's first appearance. */
  lemma HashOrderStep(es: seq<Entry>, i: nat)
    requires i < |es|
    ensures var e := es[i];
      HashOrder(es[..i + 1]) == (if !Eligible(e) || e.info.hash in HashOrder(es[..i]) then HashOrder(es[..i]) else HashOrder(es[..i]) + [e.info.hash])
  {
    assert es[..i + 1][..i] == es[..i];
  }

  /** One more file adds its path to the list of its own hash only. */
  lemma WithHashStep(es: seq<Entry>, i: nat, x: string)
    requires i < |es|
    ensures WithHash(es[..i + 1], x) == WithHash(es[..i], x) + if Eligible(es[i]) && es[i].info.hash == x then [es[i].path] else []
  {
    assert es[..i + 1][..i] == es[..i];
  }

  /** A file that is not eligible leaves the groups as they were. */
  lemma HashGroupsSkip(es: seq<Entry>, i: nat)
    requires i < |es| && !Eligible(es[i])
    ensures HashGroups(es[..i + 1]) == HashGroups(es[..i])
  {
    HashOrderStep(es, i);
    var g, g2 := HashGroups(es[..i]), HashGroups(es[..i + 1]);
    forall x | x in g2 ensures x in g && g2[x] == g[x] {
      WithHashStep(es, i, x);
    }
  }

  /** An eligible file adds its path to the list of its hash, which starts empty at the hash's first appearance. */
  lemma HashGroupsAdd(es: seq<Entry>, i: nat)
    requires i < |es| && Eligible(es[i])
    ensures var g := HashGroups(es[..i]);
      var h := es[i].info.hash;
      HashGroups(es[..i + 1]) == g[h := (if h in g then g[h] else []) + [es[i].path]]
  {
    var g, g2 := HashGroups(es[..i]), HashGroups(es[..i + 1]);
    var h := es[i].info.hash;
    var v := (if h in g then g[h] else []) + [es[i].path];
    assert h in g2 && g2[h] == v by {
      HashOrderStep(es, i);
      HashOrderExact(es[..i]);
      WithHashStep(es, i, h);
    }
    assert forall x | x in g2 && x != h :: x in g && g2[x] == g[x] by {
      HashOrderStep(es, i);
      forall x | x in g2 && x != h ensures x in g && g2[x] == g[x] {
        WithHashStep(es, i, x);
      }
    }
    assert forall x | x in g :: x in g2 by {
      HashOrderStep(es, i);
    }
    assert g2 == g[h := v];
  }

  /** One more file adds its path to the list of its hash, creating the list at the hash's first appearance. */
  lemma HashGroupsStep(es: seq<Entry>, i: nat)
    requires i < |es|
    ensures var g := HashGroups(es[..i]);
      var e := es[i];
      && HashOrder(es[..i + 1]) == (if !Eligible(e) || e.info.hash in HashOrder(es[..i]) then HashOrder(es[..i]) else HashOrder(es[..i]) + [e.info.hash])
      && HashGroups(es[..i + 1]) == if !Eligible(e) then g
                                     else g[e.info.hash := (if e.info.hash in g then g[e.info.hash] else []) + [e.path]]
  {
    HashOrderStep(es, i);
    if Eligible(es[i]) {
      HashGroupsAdd(es, i);
    } else {
      HashGroupsSkip(es, i);
    }
  }

  lemma {:induction false} WithHashMembers(es: seq<Entry>, h: string, p: Path)
    requires p in WithHash(es, h)
    ensures exists k | 0 <= k < |es| :: es[k].path == p && Eligible(es[k]) && es[k].info.hash == h
  {
    var last := es[|es| - 1];
    if p in WithHash(es[..|es| - 1], h) {
      WithHashMembers(es[..|es| - 1], h, p);
      var k :| 0 <= k < |es| - 1 && es[..|es| - 1][k].path == p && Eligible(es[..|es| - 1][k]) && es[..|es| - 1][k].info.hash == h;
      assert es[k] == es[..|es| - 1][k];
    } else {
      assert es[|es| - 1].path == p;
    }
  }

  lemma {:induction false} KeepRepeatedExact(order: seq<string>, groups: map<string, seq<Path>>, h: string)
    requires forall x | x in order :: x in groups
    ensures (exists s | s in KeepRepeated(order, groups) :: s.hash == h) <==> h in order && |groups[h]| > 1
  {
    if order != [] {
      KeepRepeatedExact(order[..|order| - 1], groups, h);
      var r := KeepRepeated(order, groups);
      var last := order[|order| - 1];
      if h in order && |groups[h]| > 1 {
        if h == last {
          assert DupSet(h, groups[h]) in r;
        } else {
          assert h in order[..|order| - 1];
        }
      }
    }
  }

  predicate DistinctPaths(es: seq<Entry>) {
    forall i, j | 0 <= i < j < |es| :: es[i].path != es[j].path
  }

  /**
   * Only visible, regular, hashable files are grouped; every group holds two or
   * more files with the same hash; a hash shared by two or more such files has a
   * group; and, as the walk yields each file once, no file is in two groups.
   */
  lemma DuplicatesExact(es: seq<Entry>)
    ensures forall s | s in Duplicates(es) ::
      && |s.paths| > 1
      && s.paths == WithHash(es, s.hash)
      && forall p | p in s.paths :: exists k | 0 <= k < |es| :: es[k].path == p && Eligible(es[k]) && es[k].info.hash == s.hash
    ensures forall h :: (exists s | s in Duplicates(es) :: s.hash == h) <==> |WithHash(es, h)| > 1
    ensures DistinctPaths(es) ==>
      forall s1, s2, p | s1 in Duplicates(es) && s2 in Duplicates(es) && p in s1.paths && p in s2.paths :: s1.hash == s2.hash
  {
    var dups := Duplicates(es);
    HashOrderExact(es);
    forall s, p | s in dups && p in s.paths
      ensures exists k | 0 <= k < |es| :: es[k].path == p && Eligible(es[k]) && es[k].info.hash == s.hash
    {
      WithHashMembers(es, s.hash, p);
    }
    forall h ensures (exists s | s in dups :: s.hash == h) <==> |WithHash(es, h)| > 1 {
      KeepRepeatedExact(HashOrder(es), HashGroups(es), h);
    }
    if DistinctPaths(es) {
      forall s1, s2, p | s1 in dups && s2 in dups && p in s1.paths && p in s2.paths
        ensures s1.hash == s2.hash
      {
        WithHashMembers(es, s1.hash, p);
        WithHashMembers(es, s2.hash, p);
      }
    }
  }

  // ------------------------------------------------------------ space savings

  /** The first path's size can be read. */
  predicate Readable(d: Disk, p: Path) {
    d.Find(p).Some? && d.Find(p).value.statError.None?
  }

  datatype Savings = Savings(duplicates: nat, bytes: nat)

  /** `calculate_space_savings`: one kept copy per set; bytes only for sets whose first file can be sized. */
  function SavingsSpec(d: Disk, dups: seq<DupSet>): Savings
    requires forall s | s in dups :: |s.paths| > 0
  {
    if dups == [] then Savings(0, 0)
    else
      var acc := SavingsSpec(d, dups[..|dups| - 1]);
      var s := dups[|dups| - 1];
      Savings(acc.duplicates + (|s.paths| - 1), acc.bytes + SetBytes(d, s))
  }

  /** The bytes one set frees: its size times the copies removed, when its first file can be sized. */
  function SetBytes(d: Disk, s: DupSet): nat
    requires |s.paths| > 0
  {
    if Readable(d, s.paths[0]) then d.Find(s.paths[0]).value.size * (|s.paths| - 1) else 0
  }

  method SpaceSavings(d: Disk, dups: seq<DupSet>) returns (duplicates: nat, bytes: nat)
    requires forall s | s in dups :: |s.paths| > 0
    ensures Savings(duplicates, bytes) == SavingsSpec(d, dups)
  {
    duplicates, bytes := 0, 0;
    var i := 0;
    while i < |dups|
      invariant 0 <= i <= |dups|
      invariant Savings(duplicates, bytes) == SavingsSpec(d, dups[..i])
    {
      ghost var before := Savings(duplicates, bytes);
      assert SavingsSpec(d, dups[..i + 1]) ==
        Savings(before.duplicates + (|dups[i].paths| - 1), before.bytes + SetBytes(d, dups[i]))
      by {
        assert dups[..i + 1][..i] == dups[..i];
      }
      var paths := dups[i].paths;
      duplicates := duplicates + (|paths| - 1);
      var found := d.Find(paths[0]);
      if found.Some? && found.value.statError.None? {
        bytes := bytes + found.value.size * (|paths| - 1);
      }
      assert bytes == before.bytes + SetBytes(d, dups[i]);
      i := i + 1;
    }
    assert dups[..i] == dups;
  }

  // ------------------------------------------------------------ keeping the shortest path

  predicate SortedByLength(s: seq<Path>) {
    forall i, j | 0 <= i < j < |s| :: PathLength(s[i]) <= PathLength(s[j])
  }

  /** Places `x` after every element no longer than it: the step of a stable sort. */
  function InsertByLength(s: seq<Path>, x: Path): (r: seq<Path>)
    ensures multiset(r) == multiset(s) + multiset{x}
  {
    if s == [] then [x]
    else if PathLength(s[|s| - 1]) <= PathLength(x) then s + [x]
    else
      assert s == s[..|s| - 1] + [s[|s| - 1]];
      InsertByLength(s[..|s| - 1], x) + [s[|s| - 1]]
  }

  /** `sorted(paths, key=len)`: stable, so paths of equal length keep their walk order. */
  function SortByLength(ps: seq<Path>): (r: seq<Path>)
    ensures multiset(r) == multiset(ps)
  {
    if ps == [] then []
    else
      assert ps == ps[..|ps| - 1] + [ps[|ps| - 1]];
      InsertByLength(SortByLength(ps[..|ps| - 1]), ps[|ps| - 1])
  }

  /** Every path of the result of an insertion was in the list or is the inserted one. */
  lemma InsertMember(s: seq<Path>, x: Path, y: Path)
    requires y in InsertByLength(s, x)
    ensures y in s || y == x
  {
    assert y in multiset(InsertByLength(s, x));
  }

  /** In a sorted list no path is longer than the last. */
  lemma LastIsLongest(s: seq<Path>, y: Path)
    requires SortedByLength(s) && y in s
    ensures PathLength(y) <= PathLength(s[|s| - 1])
  {
  }

  /** Appending a path no shorter than any other keeps a list sorted. */
  lemma SnocSorted(r: seq<Path>, last: Path)
    requires SortedByLength(r)
    requires forall y | y in r :: PathLength(y) <= PathLength(last)
    ensures SortedByLength(r + [last])
  {
    var r2 := r + [last];
    forall i, j | 0 <= i < j < |r2| ensures PathLength(r2[i]) <= PathLength(r2[j]) {
      if j == |r| {
        assert r2[i] in r;
      }
    }
  }

  lemma {:induction false} InsertSorted(s: seq<Path>, x: Path)
    requires SortedByLength(s)
    ensures SortedByLength(InsertByLength(s, x))
  {
    if s != [] && PathLength(s[|s| - 1]) > PathLength(x) {
      var pre := s[..|s| - 1];
      var last := s[|s| - 1];
      assert SortedByLength(pre);
      InsertSorted(pre, x);
      var r := InsertByLength(pre, x);
      forall y | y in r ensures PathLength(y) <= PathLength(last) {
        InsertMember(pre, x, y);
        if y != x {
          LastIsLongest(s, y);
        }
      }
      SnocSorted(r, last);
    }
  }

  lemma {:induction false} InsertHead(s: seq<Path>, x: Path)
    requires SortedByLength(s) && s != []
    ensures InsertByLength(s, x)[0] == if PathLength(x) < PathLength(s[0]) then x else s[0]
  {
    var pre := s[..|s| - 1];
    if PathLength(s[|s| - 1]) > PathLength(x) && pre != [] {
      InsertHead(pre, x);
    }
  }

  lemma {:induction false} SortSorted(ps: seq<Path>)
    ensures SortedByLength(SortByLength(ps))
  {
    if ps != [] {
      SortSorted(ps[..|ps| - 1]);
      InsertSorted(SortByLength(ps[..|ps| - 1]), ps[|ps| - 1]);
    }
  }

  /** The index of the first path, in walk order, of the smallest length. */
  function FirstShortest(ps: seq<Path>): (i: nat)
    requires ps != []
    ensures i < |ps|
    ensures forall j | 0 <= j < |ps| :: PathLength(ps[i]) <= PathLength(ps[j])
    ensures forall j | 0 <= j < i :: PathLength(ps[j]) > PathLength(ps[i])
  {
    if |ps| == 1 then 0
    else
      var i := FirstShortest(ps[..|ps| - 1]);
      if PathLength(ps[|ps| - 1]) < PathLength(ps[i]) then |ps| - 1 else i
  }

  lemma {:induction false} SortHead(ps: seq<Path>)
    requires ps != []
    ensures SortByLength(ps)[0] == ps[FirstShortest(ps)]
  {
    var pre := ps[..|ps| - 1];
    if pre != [] {
      SortHead(pre);
      SortSorted(pre);
      InsertHead(SortByLength(pre), ps[|ps| - 1]);
    }
  }

  /** The path kept: the first of the sorted group. */
  function Keep(ps: seq<Path>): Path
    requires ps != []
  {
    SortByLength(ps)[0]
  }

  /** The paths deleted: the rest of the sorted group. */
  function Targets(ps: seq<Path>): seq<Path>
    requires ps != []
  {
    SortByLength(ps)[1..]
  }

  /** The kept path is a shortest one, and the first of the shortest in walk order. */
  lemma KeepShortest(ps: seq<Path>)
    requires ps != []
    ensures Keep(ps) in ps
    ensures forall p | p in ps :: PathLength(Keep(ps)) <= PathLength(p)
    ensures forall j | 0 <= j < |ps| && PathLength(ps[j]) == PathLength(Keep(ps)) :: j >= FirstShortest(ps)
    ensures Keep(ps) == ps[FirstShortest(ps)]
  {
    SortHead(ps);
    var i := FirstShortest(ps);
    forall p | p in ps ensures PathLength(ps[i]) <= PathLength(p) {
      var k :| 0 <= k < |ps| && ps[k] == p;
    }
  }

  /** Every other path of the group is a deletion target, each as often as it occurs in the group. */
  lemma KeepAndTargets(ps: seq<Path>)
    requires ps != []
    ensures multiset(Targets(ps)) + multiset{Keep(ps)} == multiset(ps)
  {
    var s := SortByLength(ps);
    assert s == [s[0]] + s[1..];
  }

  // ------------------------------------------------------------ deleting

  datatype RemoveResult = RemoveResult(disk: Disk, deleted: nat)

  /** `os.remove(p)` inside `try`: a missing or protected file is reported and left. */
  function RemoveOne(d: Disk, p: Path): RemoveResult {
    if d.Find(p).None? || d.Find(p).value.locked then RemoveResult(d, 0)
    else RemoveResult(d.Remove(p), 1)
  }

  /** Removing each path in turn, counting the removals that succeed. */
  function RemoveRun(d: Disk, paths: seq<Path>, deleted: nat): RemoveResult
    decreases |paths|
  {
    if paths == [] then RemoveResult(d, deleted)
    else
      var s := RemoveOne(d, paths[0]);
      RemoveRun(s.disk, paths[1..], deleted + s.deleted)
  }

  method RemoveFile(fs: FileSystem, p: Path) returns (removed: nat)
    modifies fs
    ensures RemoveResult(fs.Snapshot(), removed) == RemoveOne(old(fs.Snapshot()), p)
  {
    var found := fs.Snapshot().Find(p);
    if found.None? || found.value.locked {
      return 0;
    }
    fs.Remove(p);
    return 1;
  }

  /** Every deletion target of every set, set by set. */
  function AllTargets(dups: seq<DupSet>): seq<Path>
    requires forall s | s in dups :: |s.paths| > 0
  {
    if dups == [] then [] else Targets(dups[0].paths) + AllTargets(dups[1..])
  }

  /** The inner loop: removes each path in turn, counting the removals that succeed. */
  method RemovePaths(fs: FileSystem, paths: seq<Path>, deleted0: nat) returns (deleted: nat)
    modifies fs
    ensures RemoveResult(fs.Snapshot(), deleted) == RemoveRun(old(fs.Snapshot()), paths, deleted0)
  {
    ghost var d0 := fs.Snapshot();
    deleted := deleted0;
    var j := 0;
    while j < |paths|
      invariant 0 <= j <= |paths|
      invariant RemoveRun(d0, paths, deleted0) == RemoveRun(fs.Snapshot(), paths[j..], deleted)
    {
      assert paths[j..][0] == paths[j] && paths[j..][1..] == paths[j + 1..];
      var removed := RemoveFile(fs, paths[j]);
      deleted := deleted + removed;
      j := j + 1;
    }
    assert paths[j..] == [];
  }

  lemma {:induction false} RemoveRunAppend(d: Disk, a: seq<Path>, b: seq<Path>, deleted: nat)
    ensures var r := RemoveRun(d, a, deleted);
      RemoveRun(d, a + b, deleted) == RemoveRun(r.disk, b, r.deleted)
    decreases |a|
  {
    if a != [] {
      assert (a + b)[0] == a[0] && (a + b)[1..] == a[1..] + b;
      var s := RemoveOne(d, a[0]);
      RemoveRunAppend(s.disk, a[1..], b, deleted + s.deleted);
    } else {
      assert a + b == b;
    }
  }

  method DeleteDuplicates(fs: FileSystem, dups: seq<DupSet>) returns (deleted: nat)
    requires forall s | s in dups :: |s.paths| > 0
    modifies fs
    ensures RemoveResult(fs.Snapshot(), deleted) == RemoveRun(old(fs.Snapshot()), AllTargets(dups), 0)
  {
    ghost var d0 := fs.Snapshot();
    deleted := 0;
    var i := 0;
    while i < |dups|
      invariant 0 <= i <= |dups|
      invariant RemoveRun(d0, AllTargets(dups), 0) == RemoveRun(fs.Snapshot(), AllTargets(dups[i..]), deleted)
    {
      assert dups[i..][0] == dups[i] && dups[i..][1..] == dups[i + 1..];
      var targets := Targets(dups[i].paths);
      RemoveRunAppend(fs.Snapshot(), targets, AllTargets(dups[i + 1..]), deleted);
      deleted := RemovePaths(fs, targets, deleted);
      i := i + 1;
    }
  }

  /** The sets add up: one kept copy per set, every other path counted once, as deletion targets are. */
  lemma {:induction false} SavingsCountsTargets(d: Disk, dups: seq<DupSet>)
    requires forall s | s in dups :: |s.paths| > 0
    ensures SavingsSpec(d, dups).duplicates == |AllTargets(dups)|
  {
    if dups != [] {
      var pre := dups[..|dups| - 1];
      var last := dups[|dups| - 1];
      assert dups == pre + [last];
      SavingsCountsTargets(d, pre);
      AllTargetsSnocCount(pre, last);
    }
  }

  /** The bytes come only from sets whose first file can be sized: when none can, nothing is counted as saved. */
  lemma {:induction false} SavingsNeedReadableSets(d: Disk, dups: seq<DupSet>)
    requires forall s | s in dups :: |s.paths| > 0 && !Readable(d, s.paths[0])
    ensures SavingsSpec(d, dups).bytes == 0
  {
    if dups != [] {
      assert dups[|dups| - 1] in dups;
      assert forall s | s in dups[..|dups| - 1] :: s in dups;
      SavingsNeedReadableSets(d, dups[..|dups| - 1]);
    }
  }

  lemma TargetsCount(ps: seq<Path>)
    requires ps != []
    ensures |Targets(ps)| == |ps| - 1
  {
    assert |multiset(SortByLength(ps))| == |multiset(ps)|;
  }

  /** One more set adds all but one of its paths to the targets. */
  lemma {:induction false} AllTargetsSnocCount(dups: seq<DupSet>, s: DupSet)
    requires forall x | x in dups :: |x.paths| > 0
    requires |s.paths| > 0
    ensures |AllTargets(dups + [s])| == |AllTargets(dups)| + |s.paths| - 1
  {
    var all := dups + [s];
    if dups != [] {
      assert all[0] == dups[0] && all[1..] == dups[1..] + [s];
      AllTargetsSnocCount(dups[1..], s);
    } else {
      assert all[1..] == [];
      TargetsCount(s.paths);
    }
  }

  /** One removal: it succeeds exactly when an unprotected file is there, and then that file alone is gone. */
  lemma RemoveOneEffect(d: Disk, p: Path, q: Path)
    ensures var s := RemoveOne(d, p);
      && s.disk.dirs == d.dirs
      && (s.deleted == 1 <==> d.Find(p).Some? && !d.Find(p).value.locked)
      && (s.deleted == 0 ==> s.disk == d)
      && s.disk.Find(q) == if q == p && s.deleted == 1 then None else d.Find(q)
  {
    if d.Find(p).Some? && !d.Find(p).value.locked {
      FindAfterRemove(d.files, p, q);
    }
  }

  /** Deletions are counted: never more than the targets, and no folder changes. */
  lemma {:induction false} RemoveRunCounts(d: Disk, paths: seq<Path>, deleted: nat)
    ensures RemoveRun(d, paths, deleted).deleted <= deleted + |paths|
    ensures RemoveRun(d, paths, deleted).disk.dirs == d.dirs
    decreases |paths|
  {
    if paths != [] {
      var s := RemoveOne(d, paths[0]);
      RemoveOneEffect(d, paths[0], paths[0]);
      RemoveRunCounts(s.disk, paths[1..], deleted + s.deleted);
    }
  }

  /** A path that is not a target is untouched. */
  lemma {:induction false} RemoveRunKeeps(d: Disk, paths: seq<Path>, deleted: nat, q: Path)
    requires q !in paths
    ensures RemoveRun(d, paths, deleted).disk.Find(q) == d.Find(q)
    decreases |paths|
  {
    if paths != [] {
      var s := RemoveOne(d, paths[0]);
      RemoveOneEffect(d, paths[0], q);
      assert q !in paths[1..];
      RemoveRunKeeps(s.disk, paths[1..], deleted + s.deleted, q);
    }
  }

  /** A target that could be removed is gone afterwards: any target left was protected. */
  lemma {:induction false} RemoveRunRemoves(d: Disk, paths: seq<Path>, deleted: nat)
    ensures forall p | p in paths && RemoveRun(d, paths, deleted).disk.IsFile(p) ::
      d.Find(p).Some? && d.Find(p).value.locked
    decreases |paths|
  {
    if paths != [] {
      var p := paths[0];
      var s := RemoveOne(d, p);
      var final := RemoveRun(s.disk, paths[1..], deleted + s.deleted).disk;
      RemoveRunRemoves(s.disk, paths[1..], deleted + s.deleted);
      forall q | q in paths && final.IsFile(q)
        ensures d.Find(q).Some? && d.Find(q).value.locked
      {
        RemoveOneEffect(d, p, q);
        if q !in paths[1..] && !(d.Find(p).Some? && d.Find(p).value.locked) {
          NeverRestored(s.disk, paths[1..], deleted + s.deleted, p);
        }
      }
    }
  }

  lemma {:induction false} NeverRestored(d: Disk, paths: seq<Path>, deleted: nat, q: Path)
    requires !d.IsFile(q)
    ensures !RemoveRun(d, paths, deleted).disk.IsFile(q)
    decreases |paths|
  {
    if paths != [] {
      var s := RemoveOne(d, paths[0]);
      RemoveOneEffect(d, paths[0], q);
      NeverRestored(s.disk, paths[1..], deleted + s.deleted, q);
    }
  }

  // ------------------------------------------------------------ the whole run

  datatype Report =
    | NotAccessible
    | NoDuplicates
    | SizeUnreadable(sets: seq<DupSet>, savings: Savings, at: Path)
    | Found(sets: seq<DupSet>, savings: Savings, deleted: Option<nat>)

  datatype RunResult = RunResult(disk: Disk, report: Report)

  /** The first set whose first file cannot be sized: listing the sets raises there. */
  function FirstUnreadable(d: Disk, dups: seq<DupSet>): (r: Option<Path>)
    requires forall s | s in dups :: |s.paths| > 0
    ensures r.None? <==> forall s | s in dups :: Readable(d, s.paths[0])
  {
    if dups == [] then None
    else if !Readable(d, dups[0].paths[0]) then Some(dups[0].paths[0])
    else FirstUnreadable(d, dups[1..])
  }

  /** `dedupe(root, dry_run)`. */
  function DedupeSpec(d: Disk, root: Path, dryRun: bool): RunResult {
    if !d.Exists(root) then RunResult(d, NotAccessible)
    else
      var dups := Duplicates(d.Walk(root));
      if dups == [] then RunResult(d, NoDuplicates)
      else
        var savings := SavingsSpec(d, dups);
        match FirstUnreadable(d, dups)
        case Some(p) => RunResult(d, SizeUnreadable(dups, savings, p))
        case None =>
          if dryRun then RunResult(d, Found(dups, savings, None))
          else
            var r := RemoveRun(d, AllTargets(dups), 0);
            RunResult(r.disk, Found(dups, savings, Some(r.deleted)))
  }

  method RunDedupe(fs: FileSystem, root: Path, dryRun: bool) returns (report: Report)
    modifies fs
    ensures RunResult(fs.Snapshot(), report) == DedupeSpec(old(fs.Snapshot()), root, dryRun)
  {
    if !fs.Snapshot().Exists(root) {
      return NotAccessible;
    }
    var dups := FindDuplicates(fs.Snapshot().Walk(root));
    if dups == [] {
      return NoDuplicates;
    }
    var duplicates, bytes := SpaceSavings(fs.Snapshot(), dups);
    var i := 0;
    while i < |dups|
      invariant 0 <= i <= |dups|
      invariant FirstUnreadable(fs.Snapshot(), dups) == FirstUnreadable(fs.Snapshot(), dups[i..])
    {
      assert dups[i..][0] == dups[i] && dups[i..][1..] == dups[i + 1..];
      var found := fs.Snapshot().Find(dups[i].paths[0]);
      if found.None? || found.value.statError.Some? {
        return SizeUnreadable(dups, Savings(duplicates, bytes), dups[i].paths[0]);
      }
      i := i + 1;
    }
    if dryRun {
      return Found(dups, Savings(duplicates, bytes), None);
    }
    var deleted := DeleteDuplicates(fs, dups);
    return Found(dups, Savings(duplicates, bytes), Some(deleted));
  }

  /** A dry run deletes nothing. */
  lemma DedupeDryRunDeletesNothing(d: Disk, root: Path)
    ensures DedupeSpec(d, root, true).disk == d
  {
  }

  /**
   * A real run deletes at most the duplicates counted in the summary, and only
   * deletion targets: every other file is left as it was (`KeptCopiesStay` shows
   * that the kept copies are among them).
   */
  lemma DedupeDeletesOnlyTargets(d: Disk, root: Path, q: Path)
    ensures var r := DedupeSpec(d, root, false);
      r.report.Found? && r.report.deleted.Some? ==>
        && r.report.deleted.value <= r.report.savings.duplicates
        && (q !in AllTargets(r.report.sets) ==> r.disk.Find(q) == d.Find(q))
  {
    var r := DedupeSpec(d, root, false);
    if r.report.Found? && r.report.deleted.Some? {
      var dups := Duplicates(d.Walk(root));
      var run := RemoveRun(d, AllTargets(dups), 0);
      assert r == RunResult(run.disk, Found(dups, SavingsSpec(d, dups), Some(run.deleted)));
      RemoveRunCounts(d, AllTargets(dups), 0);
      if q !in AllTargets(dups) {
        RemoveRunKeeps(d, AllTargets(dups), 0, q);
      }
      SavingsCountsTargets(d, dups);
    }
  }

  /** No path occurs twice. */
  predicate DistinctSeq(ps: seq<Path>) {
    forall i, j | 0 <= i < j < |ps| :: ps[i] != ps[j]
  }

  /** A walk that lists each path once gives each hash a list of distinct paths. */
  lemma {:induction false} WithHashDistinct(es: seq<Entry>, h: string)
    requires DistinctPaths(es)
    ensures DistinctSeq(WithHash(es, h))
  {
    if es != [] {
      var pre := es[..|es| - 1];
      assert DistinctPaths(pre) by {
        forall i, j | 0 <= i < j < |pre| ensures pre[i].path != pre[j].path {
          assert pre[i] == es[i] && pre[j] == es[j];
        }
      }
      WithHashDistinct(pre, h);
      var w := WithHash(pre, h);
      forall i | 0 <= i < |w| ensures w[i] != es[|es| - 1].path {
        WithHashMembers(pre, h, w[i]);
        var k :| 0 <= k < |pre| && pre[k].path == w[i] && Eligible(pre[k]) && pre[k].info.hash == h;
        assert pre[k] == es[k];
      }
    }
  }

  /** In a list of distinct paths, each path occurs at most once. */
  lemma {:induction false} DistinctOnce(ps: seq<Path>, x: Path)
    requires DistinctSeq(ps)
    ensures multiset(ps)[x] <= 1
  {
    if ps != [] {
      assert ps == [ps[0]] + ps[1..];
      assert DistinctSeq(ps[1..]) by {
        forall i, j | 0 <= i < j < |ps[1..]| ensures ps[1..][i] != ps[1..][j] {
          assert ps[1..][i] == ps[i + 1] && ps[1..][j] == ps[j + 1];
        }
      }
      DistinctOnce(ps[1..], x);
      if ps[0] == x {
        assert x !in ps[1..] by {
          forall k | 0 <= k < |ps[1..]| ensures ps[1..][k] != x {
            assert ps[1..][k] == ps[k + 1];
          }
        }
      }
    }
  }

  /** A deletion target of a group is one of its paths, and never the kept one when the paths are distinct. */
  lemma TargetsOfGroup(ps: seq<Path>, p: Path)
    requires ps != []
    ensures p in Targets(ps) ==> p in ps
    ensures DistinctSeq(ps) ==> Keep(ps) !in Targets(ps)
  {
    KeepAndTargets(ps);
    assert multiset(ps)[p] == multiset(Targets(ps))[p] + multiset{Keep(ps)}[p];
    if DistinctSeq(ps) {
      DistinctOnce(ps, Keep(ps));
      assert multiset(ps)[Keep(ps)] == multiset(Targets(ps))[Keep(ps)] + 1;
    }
  }

  /** A path among all the targets is a target of some set. */
  lemma {:induction false} AllTargetsMember(dups: seq<DupSet>, p: Path)
    requires forall s | s in dups :: |s.paths| > 0
    requires p in AllTargets(dups)
    ensures exists s | s in dups :: p in Targets(s.paths)
  {
    if p !in Targets(dups[0].paths) {
      AllTargetsMember(dups[1..], p);
      var s :| s in dups[1..] && p in Targets(s.paths);
      assert s in dups;
    }
  }

  /**
   * When the walk lists each file once, the copy kept from each set is nobody's
   * deletion target, so a real run leaves every kept copy as it was.
   */
  lemma KeptCopiesStay(d: Disk, root: Path)
    requires DistinctPaths(d.Walk(root))
    ensures var r := DedupeSpec(d, root, false);
      r.report.Found? ==>
        forall s | s in r.report.sets ::
          && Keep(s.paths) in s.paths
          && Keep(s.paths) !in AllTargets(r.report.sets)
          && (r.report.deleted.Some? ==> r.disk.Find(Keep(s.paths)) == d.Find(Keep(s.paths)))
  {
    var r := DedupeSpec(d, root, false);
    if r.report.Found? {
      var es := d.Walk(root);
      var dups := Duplicates(es);
      assert r.report.sets == dups;
      DuplicatesExact(es);
      forall s | s in dups
        ensures Keep(s.paths) in s.paths && Keep(s.paths) !in AllTargets(dups)
      {
        KeepShortest(s.paths);
        var k := Keep(s.paths);
        if k in AllTargets(dups) {
          AllTargetsMember(dups, k);
          var t :| t in dups && k in Targets(t.paths);
          TargetsOfGroup(t.paths, k);
          assert t.hash == s.hash;
          WithHashDistinct(es, s.hash);
          TargetsOfGroup(s.paths, k);
          assert false;
        }
      }
      forall s | s in dups && r.report.deleted.Some?
        ensures r.disk.Find(Keep(s.paths)) == d.Find(Keep(s.paths))
      {
        DedupeDeletesOnlyTargets(d, root, Keep(s.paths));
      }
    }
  }
}

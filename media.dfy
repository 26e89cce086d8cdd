/**
 * Classifying a file name as photo, video or other by its lower-cased extension,
 * the way every tool does it, and the two notions of "extension" the sources use:
 * `os.path.splitext` and `pathlib.PurePath.suffix`.
 */
module Media {
  import opened Wrappers
  import opened Text
  import opened Constants
  import opened FileSystem

  datatype Kind = Photo | Video | Other

  /** A name starting with "." is hidden and skipped by most walks. */
  predicate IsHidden(name: string) {
    |name| > 0 && name[0] == '.'
  }

  /**
   * `os.path.splitext(name)[1]` for a bare file name: from the last "." to the end,
   * provided some character before that dot is not a dot; otherwise empty.
   */
  function SplitExt(name: string): (ext: string)
    ensures ext == [] || (|ext| <= |name| && ext == name[|name| - |ext|..] && ext[0] == '.')
  {
    match LastIndexOf(name, '.')
    case None => ""
    case Some(i) => if exists k | 0 <= k < i :: name[k] != '.' then name[i..] else ""
  }

  /** `PurePath(name).suffix`: from the last "." when it is neither the first nor the last character. */
  function Suffix(name: string): (ext: string)
    ensures ext == [] || (|ext| <= |name| && ext == name[|name| - |ext|..] && ext[0] == '.')
  {
    match LastIndexOf(name, '.')
    case None => ""
    case Some(i) => if 0 < i < |name| - 1 then name[i..] else ""
  }

  function KindOfExt(ext: string): Kind {
    if ext in PhotoExt then Photo else if ext in VideoExt then Video else Other
  }

  /** `os.path.splitext(name.lower())[1]` looked up in `PHOTO_EXT`, then `VIDEO_EXT`. */
  function KindOf(name: string): Kind {
    KindOfExt(SplitExt(Lower(name)))
  }

  predicate IsMedia(name: string) {
    KindOf(name) != Other
  }

  lemma {:induction false} LastDotOfLower(s: string)
    ensures LastIndexOf(Lower(s), '.') == LastIndexOf(s, '.')
  {
    if s != [] {
      assert Lower(s)[..|s| - 1] == Lower(s[..|s| - 1]);
      LastDotOfLower(s[..|s| - 1]);
    }
  }

  /** Lower-casing before or after taking the extension gives the same extension. */
  lemma LowerSplitExt(name: string)
    ensures SplitExt(Lower(name)) == Lower(SplitExt(name))
  {
    LastDotOfLower(name);
    match LastIndexOf(name, '.')
    case None =>
    case Some(i) =>
      var low := Lower(name);
      assert (exists k | 0 <= k < i :: low[k] != '.') <==> (exists k | 0 <= k < i :: name[k] != '.') by {
        forall k | 0 <= k < i ensures (low[k] != '.') == (name[k] != '.') {}
      }
      assert low[i..] == Lower(name[i..]);
  }

  /**
   * For a name that is not hidden, the `pathlib` suffix used by the folder counter
   * classifies exactly as the `splitext` extension used by the other tools.
   */
  lemma SuffixKindAgrees(name: string)
    requires !IsHidden(name)
    ensures KindOfExt(Lower(Suffix(name))) == KindOf(name)
  {
    SuffixOfLower(name);
    ExtensionsWellFormed();
  }

  /** The two extensions differ only for a name ending in ".", where `splitext` keeps the dot alone. */
  lemma SuffixOfLower(name: string)
    requires !IsHidden(name)
    ensures Lower(Suffix(name)) == SplitExt(Lower(name)) || (Suffix(name) == "" && SplitExt(Lower(name)) == ".")
  {
    LastDotOfLower(name);
    match LastIndexOf(name, '.')
    case None =>
    case Some(i) =>
      var low := Lower(name);
      assert i > 0;
      assert low[0] != '.';
      assert low[i..] == Lower(name[i..]);
      if i == |name| - 1 {
        assert low[i..] == ".";
      }
  }

  /** The paths of a walk, in order, whose names are visible media names. */
  function MediaIn(paths: seq<Path>): seq<Path> {
    if paths == [] then []
    else
      var p := paths[|paths| - 1];
      MediaIn(paths[..|paths| - 1]) + if !IsHidden(Name(p)) && IsMedia(Name(p)) then [p] else []
  }

  lemma {:induction false} MediaInSubset(paths: seq<Path>)
    ensures forall p | p in MediaIn(paths) :: p in paths && !IsHidden(Name(p)) && IsMedia(Name(p))
    ensures |MediaIn(paths)| <= |paths|
  {
    if paths != [] {
      MediaInSubset(paths[..|paths| - 1]);
    }
  }
}

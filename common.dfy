/**
 * Types shared by the tools: the operator's folder actions and the mutable
 * photo/video/other counter `Stats`, whose `+=` adds in place.
 */
module Common {
  import opened Constants
  import opened Media

  /** The module's own copies of the extension sets. */
  const CommonPhotoExt: set<string> := {".jpg", ".jpeg", ".png", ".heic", ".tif", ".tiff", ".nef", ".cr2", ".arw"}
  const CommonVideoExt: set<string> := {".mp4", ".mov", ".avi", ".mkv", ".mts"}

  /** The copies are the shared sets, so one classifier serves every tool. */
  lemma CommonExtensionsAgree()
    ensures CommonPhotoExt == PhotoExt && CommonVideoExt == VideoExt
  {
  }

  /** What the operator chose for a folder; no other value exists. */
  datatype FolderAction = Accept | Rename | Ungroup | Skip

  /** The three counters of a `Stats` object, as a value. */
  datatype Counts = Counts(photo: nat, video: nat, other: nat) {

    function Plus(o: Counts): Counts {
      Counts(photo + o.photo, video + o.video, other + o.other)
    }

    function Total(): nat {
      photo + video + other
    }
  }

  const Zero: Counts := Counts(0, 0, 0)

  /** The counts of one file of kind `k`: exactly one counter is one. */
  function Tally(k: Kind): (c: Counts)
    ensures c.Total() == 1
    ensures c.photo == (if k == Photo then 1 else 0)
    ensures c.video == (if k == Video then 1 else 0)
    ensures c.other == (if k == Other then 1 else 0)
  {
    match k
    case Photo => Counts(1, 0, 0)
    case Video => Counts(0, 1, 0)
    case Other => Counts(0, 0, 1)
  }

  lemma PlusZero(c: Counts)
    ensures c.Plus(Zero) == c
  {
  }

  /** Photo, video and other file counts of one folder. */
  class Stats {
    var photo: nat
    var video: nat
    var other: nat

    /** `Stats()`: every counter starts at zero. */
    constructor ()
      ensures Value() == Zero
    {
      photo, video, other := 0, 0, 0;
    }

    function Value(): Counts
      reads this
    {
      Counts(photo, video, other)
    }

    /**
     * `self += o`: adds the three counters component-wise and returns `self`.
     * `o` may be `self`, which doubles every counter.
     */
    method AddAssign(o: Stats) returns (r: Stats)
      modifies this
      ensures r == this
      ensures Value() == old(Value()).Plus(old(o.Value()))
    {
      var p := photo + o.photo;
      var v := video + o.video;
      var t := other + o.other;
      photo := p;
      video := v;
      other := t;
      return this;
    }

    /** `self.Photo += 1`, `self.Video += 1` or `self.Other += 1`, as `k` says. */
    method Count(k: Kind)
      modifies this
      ensures Value() == old(Value()).Plus(Tally(k))
    {
      match k
      case Photo => photo := photo + 1;
      case Video => video := video + 1;
      case Other => other := other + 1;
    }
  }
}

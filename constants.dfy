/**
 * The shared constant tables: the photo and video extension sets and the
 * era-dependent size and resolution thresholds used by the health check.
 */
module Constants {
  import opened Text

  const PhotoExt: set<string> :=
    {".jpg", ".jpeg", ".png", ".heic", ".tif", ".tiff", ".nef", ".cr2", ".arw"}

  const VideoExt: set<string> := {".mp4", ".mov", ".avi", ".mkv", ".mts"}

  /**
   * Minimum size and resolution for a file of one era. A datatype value cannot be
   * changed after construction, as the frozen dataclass promises.
   */
  datatype ThresholdConfig = ThresholdConfig(eraLabel: string, minBytes: nat, minWidth: nat, minHeight: nat)

  /** `sys.maxsize` on a 64-bit interpreter: the top key of both tables. */
  const MaxSize: int := 0x7FFF_FFFF_FFFF_FFFF

  /** Photo thresholds, keyed by the last year (inclusive) of each era. */
  const PhotoThresholds: map<int, ThresholdConfig> := map[
    1995 := ThresholdConfig("Legacy/Thumbnail (Pre-1995)", 2048, 160, 120),
    2000 := ThresholdConfig("Legacy Photo (Pre-2000)", 5120, 320, 240),
    2006 := ThresholdConfig("Early Digital (Pre-2006)", 51200, 640, 480),
    2012 := ThresholdConfig("Point & Shoot (Pre-2012)", 204800, 1024, 768),
    2018 := ThresholdConfig("Modern Mobile (Pre-2018)", 512000, 1920, 1080),
    MaxSize := ThresholdConfig("High Res/4K (2018+)", 1048576, 3840, 2160)
  ]

  /** Video thresholds, keyed by the last year (inclusive) of each era. */
  const VideoThresholds: map<int, ThresholdConfig> := map[
    1995 := ThresholdConfig("Cinepak/Old web (Pre-1995)", 25600, 160, 120),
    2000 := ThresholdConfig("Legacy Video (Pre-2000)", 102400, 320, 240),
    2007 := ThresholdConfig("DVD/Standard Def (Pre-2007)", 5242880, 720, 480),
    2012 := ThresholdConfig("Early HD (Pre-2012)", 20971520, 1280, 720),
    2017 := ThresholdConfig("Full HD Standard (Pre-2017)", 52428800, 1920, 1080),
    MaxSize := ThresholdConfig("4K Standard (2017+)", 209715200, 3840, 2160)
  ]

  /** `sorted(PHOTO_THRESHOLDS.keys())`. */
  const PhotoBoundaries: seq<int> := [1995, 2000, 2006, 2012, 2018, MaxSize]

  /** `sorted(VIDEO_THRESHOLDS.keys())`. */
  const VideoBoundaries: seq<int> := [1995, 2000, 2007, 2012, 2017, MaxSize]

  predicate StrictlyIncreasing(s: seq<int>) {
    forall i, j | 0 <= i < j < |s| :: s[i] < s[j]
  }

  /** Every threshold of a later era is strictly larger in bytes, width and height. */
  predicate ThresholdsGrow(table: map<int, ThresholdConfig>) {
    forall k1, k2 | k1 in table && k2 in table && k1 < k2 ::
      && table[k1].minBytes < table[k2].minBytes
      && table[k1].minWidth < table[k2].minWidth
      && table[k1].minHeight < table[k2].minHeight
  }

  /** No ASCII capital letter in `s`, so `s.lower() == s`. */
  predicate NoCapitals(s: string) {
    forall i | 0 <= i < |s| :: !('A' <= s[i] <= 'Z')
  }

  lemma LowerOfNoCapitals(s: string)
    requires NoCapitals(s)
    ensures Lower(s) == s
  {
  }

  /** Every extension is a dot followed by lower-case text, so lower-cased names can match it. */
  predicate WellFormedExt(e: string) {
    |e| >= 2 && e[0] == '.' && NoCapitals(e)
  }

  /** 9 photo extensions and 5 video extensions. */
  lemma ExtensionCounts()
    ensures |PhotoExt| == 9 && |VideoExt| == 5
  {
    var p1: set<string> := {".jpg", ".jpeg", ".png", ".heic"};
    var p2: set<string> := {".tif", ".tiff", ".nef", ".cr2", ".arw"};
    assert |p1| == 4 && |p2| == 5 && p1 !! p2;
    assert PhotoExt == p1 + p2;
  }

  /** No extension is both a photo and a video extension. */
  lemma ExtensionsDisjoint()
    ensures PhotoExt !! VideoExt
  {
  }

  /** Each extension starts with a dot and has no capital letter, so `Lower(e) == e`. */
  lemma ExtensionsWellFormed()
    ensures forall e | e in PhotoExt :: WellFormedExt(e) && Lower(e) == e
    ensures forall e | e in VideoExt :: WellFormedExt(e) && Lower(e) == e
  {
    forall e | e in PhotoExt + VideoExt ensures WellFormedExt(e) && Lower(e) == e {
      assert WellFormedExt(e);
      LowerOfNoCapitals(e);
    }
  }

  /** The boundary lists are the tables' keys in ascending order, ending at `sys.maxsize`. */
  lemma BoundariesAreSortedKeys()
    ensures StrictlyIncreasing(PhotoBoundaries) && StrictlyIncreasing(VideoBoundaries)
    ensures (set k | k in PhotoBoundaries) == PhotoThresholds.Keys
    ensures (set k | k in VideoBoundaries) == VideoThresholds.Keys
    ensures PhotoBoundaries[|PhotoBoundaries| - 1] == MaxSize
    ensures VideoBoundaries[|VideoBoundaries| - 1] == MaxSize
  {
  }

  /** `sys.maxsize` is the largest key of both tables. */
  lemma MaxSizeIsTopKey()
    ensures MaxSize in PhotoThresholds && MaxSize in VideoThresholds
    ensures forall k | k in PhotoThresholds :: k <= MaxSize
    ensures forall k | k in VideoThresholds :: k <= MaxSize
  {
  }

  /** Later eras demand strictly more bytes and pixels, in both tables. */
  lemma ThresholdsIncrease()
    ensures ThresholdsGrow(PhotoThresholds) && ThresholdsGrow(VideoThresholds)
  {
  }
}

/**
 * The two records the core passes around: FileInfo (one media item of the
 * pool) and ElementInfo (one slot of the effect timeline).
 *
 * Only the fields the modelled logic reads or writes are kept. Floats
 * (slot centres) and object references (face rectangles, geo info) are
 * opaque integers here.
 */
module Elements {
  import opened Basics

  /** INFO_TYPE_BITMAP / INFO_TYPE_VIDEO; `Unset` is a fresh ElementInfo's type. */
  datatype Kind = Unset | Bitmap | Video

  /** One media item (FileInfo). */
  datatype FileInfo = FileInfo(
    countId: int,        // CountId: the item's position in the pool
    kind: Kind,          // Type
    isFake: bool,        // IsFake: a still frame standing in for a video
    width: int,          // mBWidth
    height: int,         // mBHeight
    faceCount: int,      // mFaceCount and mFBorder
    faceRect: int,       // mFaceRect
    date: int,           // mDate
    geo: Option<int>,    // mGeoInfo and its location
    textureId: int,      // TextureId (the video player index)
    vid: seq<int>,       // VId.get(k)[1]: pool index of the still frame for sub-clip k
    count: int)          // Count: which entry of vid is used next

  /** The effect the script attaches to a slot; only the numbers the core reads. */
  datatype Effect = Effect(convertType: int, convertSize: int, sleep: int, duration: int)

  /** One slot of the timeline (ElementInfo). */
  datatype ElementInfo = ElementInfo(
    kind: Kind,
    width: int,
    height: int,
    infoId: int,         // InfoId: CountId of the item shown, -1 for none
    textureId: int,      // TextureId
    videopart: int,      // Videopart
    faceCount: int,
    faceRect: int,
    date: int,
    location: Option<int>,
    centerX: int,
    centerY: int,
    restored: bool,      // mIsRestore
    time: int,           // the slot's duration, set by the script
    effect: Effect)

  /** A freshly constructed ElementInfo. */
  const Fresh: ElementInfo :=
    ElementInfo(Unset, 0, 0, -1, -1, 0, 0, 0, 0, None, 0, 0, false, 0, Effect(0, 0, 0, 0))
}

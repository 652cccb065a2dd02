/**
 * The content ordering of MicroMovieOrder.gettimeandorder: which media item
 * goes into every effect slot of a script.
 *
 * The random source is a finite stream of numbers; each `nextInt(n)` takes
 * the next number modulo n. A stream that runs dry stands for a retry loop
 * that never exits; `nextInt(0)` on an empty bucket throws in Java and is
 * the EmptyBucket error here.
 */
module MovieOrder {
  import opened Basics
  import opened Elements
  import opened OrderBands
  import opened OrderCache

  /** mRange: how many recent items the windowed pick avoids. */
  const RANGE := 3
  /** mSpacing: the pool size above which the avoidance is enforced. */
  const SPACING := RANGE * 2 + 1

  /** How the script treats a slot: CheckNoItem, !CheckInCount, or counted. */
  datatype SlotKind = NoItem | Uncounted | Counted

  /** The parts of a Script the ordering reads. */
  datatype Script = Script(id: int, slots: seq<SlotKind>)

  /** processGL.ScreenWidth / ScreenHeight. */
  datatype Screen = Screen(width: int, height: int)

  /** The exceptions the ordering can raise. */
  datatype OrderError =
    | EmptyBucket      // nextInt(0)
    | OutOfChoices     // the random stream ran dry inside a retry loop
    | IndexOutOfRange  // a list or cached array indexed past its end, a null cache entry, or a still id naming no file

  // ---------------------------------------------------------------- the pool

  /** Every item's CountId is its position, as ElementCount[info.CountId] relies on. */
  predicate WellFormedPool(pool: seq<FileInfo>)
  {
    forall k :: 0 <= k < |pool| ==> pool[k].countId == k
  }

  /** The video's cursor points into its still list, and that still names an item of the pool. */
  predicate StillOk(pool: seq<FileInfo>, info: FileInfo)
  {
    0 <= info.count < |info.vid| && 0 <= info.vid[info.count] < |pool|
  }

  /** The pool after some picks: only the video cursors may have moved. */
  predicate SameItems(p0: seq<FileInfo>, p: seq<FileInfo>)
  {
    |p| == |p0| && forall k :: 0 <= k < |p| ==> p[k] == p0[k].(count := p[k].count)
  }

  predicate InRange(xs: seq<int>, n: int)
  {
    forall k :: 0 <= k < |xs| ==> 0 <= xs[k] < n
  }

  /** mFileTotalCount: the items that are not stand-in still frames. */
  function RealFiles(pool: seq<FileInfo>): (n: nat)
    ensures n <= |pool|
  {
    if |pool| == 0 then 0 else RealFiles(pool[..|pool| - 1]) + (if pool[|pool| - 1].isFake then 0 else 1)
  }

  /** mFileBucket as first filled: positions of the real files, in pool order. */
  function RealIndices(pool: seq<FileInfo>): (r: seq<int>)
    ensures |r| == RealFiles(pool)
    ensures InRange(r, |pool|)
  {
    if |pool| == 0 then []
    else
      var r := RealIndices(pool[..|pool| - 1]);
      if pool[|pool| - 1].isFake then r else r + [|pool| - 1]
  }

  function CountKind(slots: seq<SlotKind>, kind: SlotKind): (n: nat)
    ensures n <= |slots|
  {
    if |slots| == 0 then 0 else CountKind(slots[..|slots| - 1], kind) + (if slots[|slots| - 1] == kind then 1 else 0)
  }

  // ---------------------------------------------------------------- randomness

  datatype Draw = Draw(pick: int, rest: seq<int>)

  /** Random.nextInt(n) on the injected stream. */
  function NextInt(choices: seq<int>, n: int): (r: Result<Draw, OrderError>)
    ensures n <= 0 ==> r == Err(EmptyBucket)
    ensures n > 0 && |choices| == 0 ==> r == Err(OutOfChoices)
    ensures r.Ok? ==> 0 <= r.value.pick < n && |choices| > 0 && r.value.rest == choices[1..]
  {
    if n <= 0 then Err(EmptyBucket)
    else if |choices| == 0 then Err(OutOfChoices)
    else Ok(Draw(choices[0] % n, choices[1..]))
  }

  /**
   * The do-while retry of lines 252-255 and 278-281: draw a position of the
   * random bucket until its item is outside the space bucket, or the pool is
   * too small for spacing to be enforced.
   */
  function PickSpaced(pool: seq<FileInfo>, rb: seq<int>, space: seq<int>, fileTotal: int, choices: seq<int>)
    : (r: Result<Draw, OrderError>)
    requires InRange(rb, |pool|)
    ensures r.Ok? ==> 0 <= r.value.pick < |rb|
    ensures r.Ok? ==> !(pool[rb[r.value.pick]].countId in space && fileTotal > SPACING)
    ensures r.Ok? ==> |r.value.rest| < |choices|
    ensures |rb| == 0 ==> r == Err(EmptyBucket)
    decreases |choices|
  {
    match NextInt(choices, |rb|)
    case Err(e) => Err(e)
    case Ok(d) =>
      if pool[rb[d.pick]].countId in space && fileTotal > SPACING then PickSpaced(pool, rb, space, fileTotal, d.rest)
      else Ok(d)
  }

  // ---------------------------------------------------------------- the loop state

  /** What stays fixed while the slots are filled. */
  datatype Config = Config(
    script: Script,
    screen: Screen,
    shuffle: bool,               // IsShuffle, after it may have been forced
    fileTotal: int,              // mFileTotalCount
    avg: int,                    // mAvgCount
    cached: Option<seq<int>>,    // mOrderList[mScriptId]
    centerX: Option<seq<int>>,   // mCenterX[mScriptId]
    centerY: Option<seq<int>>)   // mCenterY[mScriptId]

  /** The local variables of the loop, and the pool whose video cursors it advances. */
  datatype State = State(
    pool: seq<FileInfo>,
    out: seq<ElementInfo>,       // mFileOrder
    order: seq<int>,             // mOrder
    fileBucket: seq<int>,
    randomBucket: seq<int>,
    spaceBucket: seq<int>,
    elementCount: seq<int>,      // ElementCount
    pastVideo: bool,             // mPastVideo
    bands: Bands,
    choices: seq<int>)

  /** A slot centre restored from the cache (mCenterX[id][i], mCenterY[id][i]). */
  datatype Center = Center(x: int, y: int)

  /** Which item a counted slot takes, and the centre to restore when replaying. */
  datatype Pick = Pick(item: int, restore: Option<Center>, st: State)

  /** The element a counted slot starts from: fresh, or carrying the restored centre. */
  function Base(restore: Option<Center>): (e: ElementInfo)
    ensures e.kind == Unset
  {
    match restore
    case None => Fresh
    case Some(c) => Fresh.(centerX := c.x, centerY := c.y, restored := true)
  }

  predicate Replaying(cfg: Config)
  {
    !cfg.shuffle && cfg.cached.Some?
  }

  function SlotCount(cfg: Config): nat
  {
    |cfg.script.slots|
  }

  /** A slot with no item: a bitmap the size of the screen. */
  function NoItemElement(screen: Screen): (e: ElementInfo)
    ensures e.kind == Bitmap && e.width == screen.width && e.height == screen.height
    ensures e.infoId == -1 && e.textureId == -1 && !e.restored
  {
    Fresh.(kind := Bitmap, height := screen.height, width := screen.width)
  }

  /** Lines 212-221: the ids of up to `need` slots before `j` that show an item, latest first. */
  function Recent(out: seq<ElementInfo>, j: nat, need: nat): (r: seq<int>)
    requires j <= |out|
    ensures |r| <= need
    ensures forall x :: x in r ==> x != -1
    decreases j
  {
    if need == 0 || j == 0 then []
    else if out[j - 1].infoId != -1 then [out[j - 1].infoId] + Recent(out, j - 1, need - 1)
    else Recent(out, j - 1, need)
  }

  /** Lines 223-240 (mPos): how many upcoming bucket files the windowed pick must also avoid. */
  function SpacePos(b: Bands): (pos: int)
    requires b.NonNegative()
    ensures 0 <= pos <= RANGE + 1
    ensures b.fhalf > 0 ==> pos <= b.center
    ensures b.fhalf <= 0 ==> pos <= b.end
  {
    if b.fhalf > 0 then
      var p := if b.fhalf - 1 < RANGE then RANGE - (b.fhalf - 1) else 0;
      if b.center < p then b.center else p
    else
      var p := if b.lhalf - 1 < RANGE then RANGE - (b.lhalf - 1) else 0;
      if b.end < p then b.end else p
  }

  /** The bucket head is due: a start slot, or a centre/end slot once its half is used up. */
  predicate BucketDue(b: Bands)
  {
    b.start > 0 || (b.fhalf == 0 && b.center > 0) || (b.lhalf == 0 && b.end > 0)
  }

  /** Lines 205-210: the band that a bucket file was taken for. */
  function ConsumeSorted(b: Bands): (r: Bands)
    requires BucketDue(b)
    ensures r.Total() == b.Total() - 1
  {
    if b.start > 0 then b.(start := b.start - 1)
    else if b.fhalf == 0 && b.center > 0 then b.(center := b.center - 1)
    else b.(end := b.end - 1)
  }

  /** Lines 260-263: the half band that a windowed pick was taken for. */
  function ConsumeHalf(b: Bands): Bands
  {
    if b.fhalf > 0 then b.(fhalf := b.fhalf - 1)
    else if b.lhalf > 0 then b.(lhalf := b.lhalf - 1)
    else b
  }

  /** The random bucket after a pick at position `t`: the item leaves once it reached the average. */
  function AfterPick(rb: seq<int>, t: int, used: int, avg: int): (r: seq<int>)
    requires 0 <= t < |rb|
    ensures used >= avg ==> r == rb[..t] + rb[t + 1..]
    ensures used < avg ==> r == rb
    ensures forall x :: x in r ==> x in rb
  {
    if used >= avg then RemoveAt(rb, t) else rb
  }

  predicate LoopOk(st: State)
  {
    && WellFormedPool(st.pool)
    && |st.elementCount| == |st.pool|
    && InRange(st.randomBucket, |st.pool|)
    && InRange(st.fileBucket, |st.pool|)
    && st.bands.NonNegative()
  }

  /** Lines 212-263: the windowed random pick of the non-shuffled order. */
  function WindowedPick(cfg: Config, st: State, i: nat): (r: Result<Pick, OrderError>)
    requires LoopOk(st) && i <= |st.out|
    ensures r.Ok? ==> 0 <= r.value.item < |st.pool| && r.value.restore == None
    ensures r.Ok? ==> exists t :: 0 <= t < |st.randomBucket| && st.randomBucket[t] == r.value.item
                        && r.value.st.randomBucket == AfterPick(st.randomBucket, t, st.elementCount[r.value.item], cfg.avg)
    ensures r.Ok? ==> r.value.st == st.(randomBucket := r.value.st.randomBucket, spaceBucket := r.value.st.spaceBucket,
                                        bands := ConsumeHalf(st.bands), choices := r.value.st.choices)
  {
    var pos := SpacePos(st.bands);
    if pos > |st.fileBucket| then Err(IndexOutOfRange)
    else
      var space := Recent(st.out, i, RANGE) + seq(pos, j requires 0 <= j < pos => st.pool[st.fileBucket[j]].countId);
      match PickSpaced(st.pool, st.randomBucket, space, cfg.fileTotal, st.choices)
      case Err(e) => Err(e)
      case Ok(d) =>
        var info := st.pool[st.randomBucket[d.pick]];
        var rb := AfterPick(st.randomBucket, d.pick, st.elementCount[info.countId], cfg.avg);
        Ok(Pick(info.countId, None,
                st.(randomBucket := rb, spaceBucket := space, bands := ConsumeHalf(st.bands), choices := d.rest)))
  }

  /** Lines 273-286: the shuffled pick, avoiding the last picks kept in the space bucket. */
  function ShufflePick(cfg: Config, st: State): (r: Result<Pick, OrderError>)
    requires LoopOk(st)
    ensures r.Ok? ==> 0 <= r.value.item < |st.pool| && r.value.restore == None
    ensures r.Ok? ==> exists t :: 0 <= t < |st.randomBucket| && st.randomBucket[t] == r.value.item
                        && r.value.st.randomBucket == AfterPick(st.randomBucket, t, st.elementCount[r.value.item], cfg.avg)
    ensures r.Ok? ==> var sb := r.value.st.spaceBucket;
                      && |sb| > 0 && sb[|sb| - 1] == r.value.item
                      && |sb| <= (if |st.spaceBucket| > SPACING then |st.spaceBucket| else |st.spaceBucket| + 1)
    ensures r.Ok? ==> r.value.st == st.(randomBucket := r.value.st.randomBucket, spaceBucket := r.value.st.spaceBucket,
                                        choices := r.value.st.choices)
  {
    var space := if |st.spaceBucket| > SPACING then st.spaceBucket[1..] else st.spaceBucket;
    match PickSpaced(st.pool, st.randomBucket, space, cfg.fileTotal, st.choices)
    case Err(e) => Err(e)
    case Ok(d) =>
      var info := st.pool[st.randomBucket[d.pick]];
      var rb := AfterPick(st.randomBucket, d.pick, st.elementCount[info.countId], cfg.avg);
      Ok(Pick(info.countId, None, st.(randomBucket := rb, spaceBucket := space + [info.countId], choices := d.rest)))
  }

  /** Lines 189-287: which item a counted slot takes. */
  function ChooseCounted(cfg: Config, st: State, i: nat): (r: Result<Pick, OrderError>)
    requires LoopOk(st) && i <= |st.out| && i < SlotCount(cfg)
    requires cfg.fileTotal <= |st.pool|
    ensures r.Ok? ==> 0 <= r.value.item < |st.pool|
    ensures r.Ok? ==> r.value.st.pool == st.pool && r.value.st.out == st.out && r.value.st.order == st.order
    ensures r.Ok? ==> r.value.st.elementCount == st.elementCount && r.value.st.pastVideo == st.pastVideo
    ensures r.Ok? ==> LoopOk(r.value.st)
    ensures r.Ok? && Replaying(cfg) ==>
              var list := cfg.cached.value;
              && i < |list| && r.value.item == list[i]
              && cfg.centerX.Some? && i < |cfg.centerX.value| && cfg.centerY.Some? && i < |cfg.centerY.value|
              && r.value.restore == Some(Center(cfg.centerX.value[i], cfg.centerY.value[i]))
    ensures r.Ok? && !Replaying(cfg) ==> r.value.restore == None
    ensures r.Ok? && cfg.shuffle && |st.spaceBucket| <= SPACING + 1 ==> |r.value.st.spaceBucket| <= SPACING + 1
  {
    if !cfg.shuffle then
      match cfg.cached
      case None =>
        if cfg.fileTotal >= SlotCount(cfg) then Ok(Pick(i, None, st))
        else if |st.fileBucket| > 0 && BucketDue(st.bands) then
          Ok(Pick(st.fileBucket[0], None, st.(fileBucket := st.fileBucket[1..], bands := ConsumeSorted(st.bands))))
        else WindowedPick(cfg, st, i)
      case Some(list) =>
        if i < |list| && 0 <= list[i] < |st.pool|
           && cfg.centerX.Some? && i < |cfg.centerX.value| && cfg.centerY.Some? && i < |cfg.centerY.value| then
          Ok(Pick(list[i], Some(Center(cfg.centerX.value[i], cfg.centerY.value[i])), st))
        else Err(IndexOutOfRange)
    else ShufflePick(cfg, st)
  }

  /** The next value of a video's sub-clip cursor (lines 308-312). */
  function NextCursor(info: FileInfo): (c: int)
    ensures |info.vid| > 0 && info.count >= 0 ==> 0 <= c < |info.vid|
  {
    if info.count + 1 <= |info.vid| - 1 then info.count + 1 else 0
  }

  /** A video in the first or last slot, or right after a video, is shown as one of its stills. */
  predicate StandsIn(cfg: Config, st: State, i: nat, info: FileInfo)
  {
    info.kind == Video && (i == 0 || st.pastVideo || i + 1 == SlotCount(cfg))
  }

  /**
   * Lines 295-341: fill a counted slot with the chosen item. A video in the
   * first or last slot, or right after a video, is replaced by its next
   * still frame, and a cursor or still id that names nothing is the
   * IndexOutOfBoundsException of line 301; the item's use count goes up by
   * one either way.
   */
  function Place(cfg: Config, st: State, i: nat, p: Pick): (r: Result<State, OrderError>)
    requires WellFormedPool(st.pool) && |st.elementCount| == |st.pool|
    requires 0 <= p.item < |st.pool|
    ensures r.Err? <==> StandsIn(cfg, st, i, st.pool[p.item]) && !StillOk(st.pool, st.pool[p.item])
    ensures r.Err? ==> r.error == IndexOutOfRange
    ensures r.Ok? ==>
              var st' := r.value;
              && SameItems(st.pool, st'.pool) && WellFormedPool(st'.pool)
              && st'.elementCount == st.elementCount[p.item := st.elementCount[p.item] + 1]
              && st'.order == st.order + [p.item]
              && |st'.out| == |st.out| + 1 && st'.out[..|st.out|] == st.out
              && st' == st.(pool := st'.pool, out := st'.out, order := st'.order, elementCount := st'.elementCount,
                            pastVideo := st'.pastVideo)
    ensures r.Ok? ==>
              var st' := r.value; var e := st'.out[|st.out|];
              && (e.kind == Video ==> i != 0 && !st.pastVideo && i + 1 != SlotCount(cfg) && st'.pastVideo)
              && e.restored == p.restore.Some?
              && (p.restore.Some? ==> e.centerX == p.restore.value.x && e.centerY == p.restore.value.y)
    ensures r.Ok? ==>
              var st' := r.value; var info := st.pool[p.item]; var e := st'.out[|st.out|];
              && (StandsIn(cfg, st, i, info) ==>
                    && StillOk(st.pool, info)
                    && e.kind == Bitmap && e.infoId == info.vid[info.count] && !st'.pastVideo
                    && st'.pool == st.pool[p.item := info.(count := NextCursor(info))])
              && (info.kind == Video && !StandsIn(cfg, st, i, info) ==>
                    && e.kind == Video && e.infoId == p.item && e.videopart == st.elementCount[p.item]
                    && st'.pastVideo && st'.pool == st.pool)
              && (info.kind == Bitmap ==>
                    && e.kind == Bitmap && e.infoId == p.item && e.width == info.width && e.height == info.height
                    && !st'.pastVideo && st'.pool == st.pool)
              && (info.kind == Unset ==> e.kind == Unset && st'.pastVideo == st.pastVideo && st'.pool == st.pool)
  {
    var info := st.pool[p.item];
    assert info.countId == p.item;
    var e := Base(p.restore);
    if StandsIn(cfg, st, i, info) && !StillOk(st.pool, info) then Err(IndexOutOfRange)
    else
      var (e, pool, past) :=
        if info.kind == Video then
          if StandsIn(cfg, st, i, info) then
            var still := st.pool[info.vid[info.count]];
            (e.(kind := Bitmap, height := still.height, width := still.width, faceCount := still.faceCount,
                infoId := still.countId, date := still.date),
             st.pool[p.item := info.(count := NextCursor(info))],
             false)
          else
            (e.(kind := Video, textureId := info.textureId, videopart := st.elementCount[info.countId],
                infoId := info.countId, date := info.date),
             st.pool,
             true)
        else if info.kind == Bitmap then
          (e.(kind := Bitmap, height := info.height, width := info.width, faceCount := info.faceCount,
              infoId := info.countId, date := info.date, faceRect := info.faceRect,
              location := if info.geo.Some? then info.geo else e.location),
           st.pool,
           false)
        else (e, st.pool, st.pastVideo);
      Ok(st.(pool := pool, out := st.out + [e], order := st.order + [info.countId],
             elementCount := st.elementCount[info.countId := st.elementCount[info.countId] + 1], pastVideo := past))
  }

  // ---------------------------------------------------------------- one slot, all slots

  /** Lines 167-187: an uncounted slot shows a random item of the whole pool as a bitmap. */
  function UncountedElement(info: FileInfo): (e: ElementInfo)
    ensures e.kind == Bitmap && e.infoId == info.countId && !e.restored
    ensures e.width == info.width && e.height == info.height && e.date == info.date
  {
    Fresh.(kind := Bitmap, height := info.height, width := info.width, faceCount := info.faceCount,
           infoId := info.countId, date := info.date, faceRect := info.faceRect)
  }

  /** What slot `k` of a finished prefix records, for each kind of slot. */
  predicate SlotRecorded(cfg: Config, pool: seq<FileInfo>, out: seq<ElementInfo>, order: seq<int>, k: nat)
    requires k < |out| && k < |order| && k < SlotCount(cfg)
  {
    match cfg.script.slots[k]
    case NoItem => out[k] == NoItemElement(cfg.screen) && order[k] == -1
    case Uncounted =>
      && 0 <= order[k] < |pool|
      && out[k].kind == Bitmap && out[k].infoId == order[k] && !out[k].restored
      && out[k].width == pool[order[k]].width && out[k].height == pool[order[k]].height
    case Counted =>
      && 0 <= order[k] < |pool|
      && (pool[order[k]].kind == Bitmap ==> out[k].kind == Bitmap && out[k].infoId == order[k])
      && (pool[order[k]].kind == Video ==>
            || (out[k].kind == Video && out[k].infoId == order[k])
            || (out[k].kind == Bitmap && out[k].infoId in pool[order[k]].vid))
      && (Replaying(cfg) ==>
            && cfg.cached.value != [] && k < |cfg.cached.value| && order[k] == cfg.cached.value[k]
            && cfg.centerX.Some? && k < |cfg.centerX.value| && cfg.centerY.Some? && k < |cfg.centerY.value|
            && out[k].restored && out[k].centerX == cfg.centerX.value[k] && out[k].centerY == cfg.centerY.value[k])
      && (!Replaying(cfg) ==> !out[k].restored)
  }

  /** No video in the first or last of `n` slots, and never two videos in a row. */
  predicate VideoSpaced(out: seq<ElementInfo>, n: int)
  {
    forall k :: 0 <= k < |out| && out[k].kind == Video ==> 0 < k && k != n - 1 && out[k - 1].kind != Video
  }

  lemma {:induction false} SumIncrement(s: seq<int>, k: nat)
    requires k < |s|
    ensures Sum(s[k := s[k] + 1]) == Sum(s) + 1
  {
    if k == 0 {
      assert s[k := s[k] + 1][1..] == s[1..];
    } else {
      assert s[k := s[k] + 1][1..] == s[1..][k - 1 := s[k] + 1];
      SumIncrement(s[1..], k - 1);
    }
  }

  lemma CountKindStep(slots: seq<SlotKind>, i: nat, kind: SlotKind)
    requires i < |slots|
    ensures CountKind(slots[..i + 1], kind) == CountKind(slots[..i], kind) + (if slots[i] == kind then 1 else 0)
  {
    assert slots[..i + 1][..i] == slots[..i];
  }

  /** Lines 159-346: fill slot `|st.out|`. */
  function StepSlot(cfg: Config, st: State): (r: Result<State, OrderError>)
    requires LoopOk(st) && |st.out| == |st.order| && |st.out| < SlotCount(cfg) && cfg.fileTotal <= |st.pool|
    ensures r.Ok? ==> LoopOk(r.value) && SameItems(st.pool, r.value.pool)
    ensures r.Ok? ==> |r.value.out| == |st.out| + 1 && r.value.out[..|st.out|] == st.out
    ensures r.Ok? ==> |r.value.order| == |st.order| + 1 && r.value.order[..|st.order|] == st.order
    ensures r.Ok? ==> SlotRecorded(cfg, st.pool, r.value.out, r.value.order, |st.out|)
    ensures r.Ok? ==> var i := |st.out|;
              r.value.elementCount == if cfg.script.slots[i] == Counted
                                      then st.elementCount[r.value.order[i] := st.elementCount[r.value.order[i]] + 1]
                                      else st.elementCount
    ensures r.Ok? && r.value.out[|st.out|].kind == Video ==>
              var i := |st.out|; i != 0 && i + 1 != SlotCount(cfg) && !st.pastVideo && r.value.pastVideo
    ensures r.Ok? && cfg.shuffle && |st.spaceBucket| <= SPACING + 1 ==> |r.value.spaceBucket| <= SPACING + 1
  {
    var i := |st.out|;
    match cfg.script.slots[i]
    case NoItem =>
      Ok(st.(out := st.out + [NoItemElement(cfg.screen)], order := st.order + [-1]))
    case Uncounted =>
      (match NextInt(st.choices, |st.pool|)
       case Err(e) => Err(e)
       case Ok(d) =>
         var info := st.pool[d.pick];
         Ok(st.(out := st.out + [UncountedElement(info)], order := st.order + [info.countId], choices := d.rest)))
    case Counted =>
      match ChooseCounted(cfg, st, i)
      case Err(e) => Err(e)
      case Ok(p) => Place(cfg, p.st, i, p)
  }

  /** The loop invariant of lines 158-347 after `|st.out|` slots. */
  predicate Filled(cfg: Config, pool0: seq<FileInfo>, st: State)
  {
    && |st.out| == |st.order| <= SlotCount(cfg)
    && LoopOk(st) && SameItems(pool0, st.pool) && cfg.fileTotal <= |st.pool|
    && Sum(st.elementCount) == CountKind(cfg.script.slots[..|st.out|], Counted)
    && (forall k :: 0 <= k < |st.out| ==> SlotRecorded(cfg, pool0, st.out, st.order, k))
    && VideoSpaced(st.out, SlotCount(cfg))
    && (|st.out| > 0 && st.out[|st.out| - 1].kind == Video ==> st.pastVideo)
    && (cfg.shuffle ==> |st.spaceBucket| <= SPACING + 1)
  }

  lemma SlotRecordedSamePool(cfg: Config, pool0: seq<FileInfo>, pool: seq<FileInfo>, out: seq<ElementInfo>, order: seq<int>, k: nat)
    requires SameItems(pool0, pool)
    requires k < |out| && k < |order| && k < SlotCount(cfg)
    requires SlotRecorded(cfg, pool, out, order, k)
    ensures SlotRecorded(cfg, pool0, out, order, k)
  {
    if cfg.script.slots[k] != NoItem {
      var t := order[k];
      assert pool[t] == pool0[t].(count := pool[t].count);
    }
  }

  lemma SlotRecordedPrefix(cfg: Config, pool: seq<FileInfo>, out: seq<ElementInfo>, order: seq<int>,
                           out': seq<ElementInfo>, order': seq<int>, k: nat)
    requires k < |out| && k < |order| && k < SlotCount(cfg)
    requires |out| <= |out'| && out'[..|out|] == out && |order| <= |order'| && order'[..|order|] == order
    requires SlotRecorded(cfg, pool, out, order, k)
    ensures SlotRecorded(cfg, pool, out', order', k)
  {
    assert out'[k] == out'[..|out|][k];
    assert order'[k] == order'[..|order|][k];
  }

  /** The slots from `|st.out|` on. */
  function Fill(cfg: Config, pool0: seq<FileInfo>, st: State): (r: Result<State, OrderError>)
    requires Filled(cfg, pool0, st)
    ensures r.Ok? ==> Filled(cfg, pool0, r.value) && |r.value.out| == SlotCount(cfg)
    ensures r.Ok? ==> r.value.out[..|st.out|] == st.out && r.value.order[..|st.order|] == st.order
    decreases SlotCount(cfg) - |st.out|
  {
    if |st.out| == SlotCount(cfg) then Ok(st)
    else
      match StepSlot(cfg, st)
      case Err(e) => Err(e)
      case Ok(st') =>
        FilledStep(cfg, pool0, st, st');
        var r := Fill(cfg, pool0, st');
        assert r.Ok? ==> r.value.out[..|st.out|] == r.value.out[..|st'.out|][..|st.out|];
        assert r.Ok? ==> r.value.order[..|st.order|] == r.value.order[..|st'.order|][..|st.order|];
        r
  }

  lemma FilledStep(cfg: Config, pool0: seq<FileInfo>, st: State, st': State)
    requires Filled(cfg, pool0, st) && |st.out| < SlotCount(cfg)
    requires StepSlot(cfg, st) == Ok(st')
    ensures Filled(cfg, pool0, st')
  {
    var i := |st.out|;
    SameItemsTrans(pool0, st.pool, st'.pool);
    CountKindStep(cfg.script.slots, i, Counted);
    if cfg.script.slots[i] == Counted {
      SumIncrement(st.elementCount, st'.order[i]);
    }
    FilledStepSlots(cfg, pool0, st, st');
    FilledStepVideo(cfg, st, st');
  }

  lemma SameItemsTrans(p0: seq<FileInfo>, p1: seq<FileInfo>, p2: seq<FileInfo>)
    requires SameItems(p0, p1) && SameItems(p1, p2)
    ensures SameItems(p0, p2)
  {
    forall k | 0 <= k < |p2| ensures p2[k] == p0[k].(count := p2[k].count) {
      assert p1[k] == p0[k].(count := p1[k].count);
    }
  }

  lemma FilledStepSlots(cfg: Config, pool0: seq<FileInfo>, st: State, st': State)
    requires |st.out| == |st.order| < SlotCount(cfg) && SameItems(pool0, st.pool)
    requires forall k :: 0 <= k < |st.out| ==> SlotRecorded(cfg, pool0, st.out, st.order, k)
    requires |st'.out| == |st.out| + 1 && st'.out[..|st.out|] == st.out
    requires |st'.order| == |st.order| + 1 && st'.order[..|st.order|] == st.order
    requires SlotRecorded(cfg, st.pool, st'.out, st'.order, |st.out|)
    ensures forall k :: 0 <= k < |st'.out| ==> SlotRecorded(cfg, pool0, st'.out, st'.order, k)
  {
    var i := |st.out|;
    forall k | 0 <= k < |st'.out| ensures SlotRecorded(cfg, pool0, st'.out, st'.order, k) {
      if k < i {
        SlotRecordedPrefix(cfg, pool0, st.out, st.order, st'.out, st'.order, k);
      } else {
        SlotRecordedSamePool(cfg, pool0, st.pool, st'.out, st'.order, k);
      }
    }
  }

  lemma FilledStepVideo(cfg: Config, st: State, st': State)
    requires VideoSpaced(st.out, SlotCount(cfg))
    requires |st.out| > 0 && st.out[|st.out| - 1].kind == Video ==> st.pastVideo
    requires |st'.out| == |st.out| + 1 && st'.out[..|st.out|] == st.out
    requires st'.out[|st.out|].kind == Video ==>
               var i := |st.out|; i != 0 && i + 1 != SlotCount(cfg) && !st.pastVideo && st'.pastVideo
    ensures VideoSpaced(st'.out, SlotCount(cfg))
    ensures st'.out[|st'.out| - 1].kind == Video ==> st'.pastVideo
  {
    var i := |st.out|;
    var n: int := SlotCount(cfg);
    forall k: int | 0 <= k < |st'.out| && st'.out[k].kind == Video
      ensures 0 < k && k != n - 1 && st'.out[k - 1].kind != Video
    {
      if k < i {
        assert st'.out[k] == st'.out[..i][k] && st'.out[k - 1] == st'.out[..i][k - 1];
      } else {
        assert st'.out[i - 1] == st'.out[..i][i - 1];
      }
    }
  }

  // ---------------------------------------------------------------- the whole ordering

  /** Lines 112-150: the decisions taken before the first slot is filled. */
  datatype Plan = Plan(shuffle: bool, bands: Bands, bucket: seq<int>, avg: int)

  /** Integer ceiling of run / total, minus one: mAvgCount. */
  function AvgCount(run: nat, total: nat): (avg: int)
    requires total > 0
    ensures run <= (avg + 1) * total
    ensures avg * total < run
  {
    var q := (run + total - 1) / total;
    assert q * total <= run + total - 1 < (q + 1) * total;
    q - 1
  }

  lemma InRangeOfSubset(small: seq<int>, big: seq<int>, n: int)
    requires InRange(big, n)
    requires forall x :: x in small ==> x in big
    ensures InRange(small, n)
  {
    forall k | 0 <= k < |small| ensures 0 <= small[k] < n {
      assert small[k] in small;
      var t :| 0 <= t < |big| && big[t] == small[k];
    }
  }

  lemma TrimmedInRange(pool: seq<FileInfo>, bands: Bands)
    requires bands.NonNegative()
    ensures InRange(TrimBucket(RealIndices(pool), bands), |pool|)
  {
    TrimBucketKeepsStart(RealIndices(pool), bands);
    InRangeOfSubset(TrimBucket(RealIndices(pool), bands), RealIndices(pool), |pool|);
  }

  /**
   * The bands are used only when the order is not shuffled and the real files
   * cover at least half of the counted slots; otherwise shuffling is forced.
   * The bucket of real files is then trimmed to the sorted bands.
   */
  function MakePlan(pool: seq<FileInfo>, script: Script, shuffle: bool): (p: Plan)
    requires RealFiles(pool) > 0
    ensures var run := CountKind(script.slots, Counted); var total := RealFiles(pool);
            && (p.shuffle <==> shuffle || total < run / 2)
            && (!p.shuffle ==> p.bands == Split(run) && p.bucket == TrimBucket(RealIndices(pool), Split(run)))
            && (p.shuffle ==> p.bands == NoBands && p.bucket == RealIndices(pool))
            && run <= (p.avg + 1) * total && p.avg * total < run
    ensures p.bands.NonNegative() && InRange(p.bucket, |pool|)
  {
    var run := CountKind(script.slots, Counted);
    var total := RealFiles(pool);
    var avg := AvgCount(run, total);
    if !shuffle && total >= Quot(run, 2) then
      var bands := Split(run);
      TrimmedInRange(pool, bands);
      Plan(false, bands, TrimBucket(RealIndices(pool), bands), avg)
    else Plan(true, NoBands, RealIndices(pool), avg)
  }

  /** What the loop reads from the plan, the screen and the theme's cached order. */
  function LoopConfig(cache: Cache, pool: seq<FileInfo>, script: Script, screen: Screen, p: Plan): (cfg: Config)
    ensures cfg.script == script && cfg.screen == screen && cfg.shuffle == p.shuffle && cfg.avg == p.avg
    ensures cfg.fileTotal == RealFiles(pool)
    ensures cfg.cached.Some? <==> script.id in cache.orderList
    ensures cfg.cached.Some? ==> cfg.cached.value == cache.orderList[script.id]
  {
    Config(script, screen, p.shuffle, RealFiles(pool), p.avg,
           if script.id in cache.orderList then Some(cache.orderList[script.id]) else None,
           if script.id in cache.centerX then Some(cache.centerX[script.id]) else None,
           if script.id in cache.centerY then Some(cache.centerY[script.id]) else None)
  }

  function Zeros(n: nat): (z: seq<int>)
    ensures |z| == n && Sum(z) == 0
    ensures forall k :: 0 <= k < n ==> z[k] == 0
  {
    if n == 0 then [] else [0] + Zeros(n - 1)
  }

  function Positions(n: nat): (r: seq<int>)
    ensures |r| == n && InRange(r, n)
    ensures forall k :: 0 <= k < n ==> r[k] == k
  {
    seq(n, k requires 0 <= k < n => k)
  }

  /** The loop's starting state: every item in the random bucket, no item used yet. */
  function InitialState(pool: seq<FileInfo>, p: Plan, choices: seq<int>): State
  {
    State(pool, [], [], p.bucket, Positions(|pool|), [], Zeros(|pool|), false, p.bands, choices)
  }

  /** What gettimeandorder hands back: the slot elements, the updated caches, the pool with moved video cursors. */
  datatype Ordered = Ordered(elements: seq<ElementInfo>, cache: Cache, pool: seq<FileInfo>, uses: seq<int>)

  /**
   * gettimeandorder: one element per effect slot, and the theme's order list
   * replaced by the item chosen for each slot.
   */
  function GetTimeAndOrder(cache: Cache, pool: seq<FileInfo>, script: Script, screen: Screen, shuffle: bool,
                           choices: seq<int>): (r: Result<Ordered, OrderError>)
    requires WellFormedPool(pool) && RealFiles(pool) > 0
    ensures r.Ok? ==>
              var cfg := LoopConfig(cache, pool, script, screen, MakePlan(pool, script, shuffle));
              var n := |script.slots|;
              var out := r.value.elements;
              && |out| == n
              && script.id in r.value.cache.orderList
              && var order := r.value.cache.orderList[script.id];
                 && |order| == n
                 && r.value.cache == cache.(orderList := cache.orderList[script.id := order])
                 && (forall k :: 0 <= k < n ==> SlotRecorded(cfg, pool, out, order, k))
    ensures r.Ok? ==> VideoSpaced(r.value.elements, |script.slots|)
    ensures r.Ok? ==> SameItems(pool, r.value.pool) && WellFormedPool(r.value.pool)
    ensures r.Ok? ==> |r.value.uses| == |pool| && Sum(r.value.uses) == CountKind(script.slots, Counted)
  {
    var plan := MakePlan(pool, script, shuffle);
    var cfg := LoopConfig(cache, pool, script, screen, plan);
    var st0 := InitialState(pool, plan, choices);
    assert Filled(cfg, pool, st0) by {
      assert script.slots[..0] == [];
      assert SameItems(pool, pool);
    }
    match Fill(cfg, pool, st0)
    case Err(e) => Err(e)
    case Ok(st) =>
      assert script.slots[..|st.out|] == script.slots;
      Ok(Ordered(st.out, cache.(orderList := cache.orderList[script.id := st.order]), st.pool, st.elementCount))
  }
}

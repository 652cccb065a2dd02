# MicroES micro-movie core in Dafny

A Dafny model of the parts of the MicroES "micro film" maker that decide what a
movie contains and how it is encoded. The model covers:

- **MicroMovieOrder.** It picks which photo or video fills every effect slot of
  a theme script. The choice is shuffled or banded by date. It remembers the
  order per theme and rebuilds the slot list for the encoder.
- **script/Timer.** This is the per-effect clock read by the renderer and the
  encoder.
- **EncodeAndMux.** This part covers:
  - the frame budget of every slot and the presentation timestamps;
  - the encoder drain loop, modelled as a state machine over the events the
    encoder reports;
  - the release of encoder resources;
  - the choice of a free output name;
  - the clean-up of the output directory;
  - the callback that ends an export.
- **ProcessGL.**
  - The texture-slot pool keeps a five-entry window of elements and
    reference-counts five texture slots. A slot is shared when the same image
    is wanted with the same convert pair.
  - The encode-time bookkeeping decides which window entries are drawn at a
    given elapsed time, and which time each one's timer is fed.

Everything is written as pure functions over immutable datatypes, except for a
few loop-shaped methods. The following are inputs to the model rather than
calls:

- the wall clock (`now`);
- the pause, encode and video-wait flags;
- the random number stream;
- the set of files present in the output directory;
- the sequence of statuses the encoder reports.

Java's truncating `/` is `Basics.Quot`. A thrown exception is the `Err` side of
`Basics.Result`.

Modules (one per file): `Basics`, `Elements`, `Timer`, `OrderBands`,
`OrderCache`, `MovieOrder`, `MovieOrderEncode`, `EncodeFrames`, `EncodeDrain`,
`EncodeRelease`, `EncodeOutput`, `TexturePool`, `EncodeWindow`.

`MicroMovieOrder.java` contains unresolved merge-conflict blocks. The model
follows the lower side of each block, the one that works on the `FileInfo`
list.

## Model

| member | source | states |
|---|---|---|
| Timer.New | src/com/s890510/microfilm/script/Timer.java:17-22 | a new timer stores its total and reads 0 at the instant it is created |
| Timer.SetElapseForEncode | src/com/s890510/microfilm/script/Timer.java:24-26 | only the encoder's value changes; the live clock reads the same at every instant |
| Timer.SetElapse | src/com/s890510/microfilm/script/Timer.java:29-32 | from `now` on, the live clock reads the given elapse plus the time passed since `now` |
| Timer.ResetTimer | src/com/s890510/microfilm/script/Timer.java:34-37 | from `now` on, the live clock reads the time passed since `now` |
| Timer.GetElapse | src/com/s890510/microfilm/script/Timer.java:39-51 | precedence is encode, then paused, then video-wait, then live; only the paused and live readings refresh the stored system time |
| Timer.SeekBarElapse | src/com/s890510/microfilm/script/Timer.java:53-60 | while paused, the reading uses the stored system time and changes nothing; otherwise it refreshes it |
| Timer.IsAlive | src/com/s890510/microfilm/script/Timer.java:62-64 | alive exactly when getElapse is below the total; never alive while a video is waited for in live preview |
| Timer.EncodeReadsLastSet | src/com/s890510/microfilm/script/Timer.java:24-51 | in encode mode the timer reads the last value the encoder set, whatever other calls came in between |
| Timer.PausedSeekBarIsFrozen | src/com/s890510/microfilm/script/Timer.java:53-60 | a run of paused seek-bar reads leaves the clock unchanged, so every read gives the same value |
| Timer.PausedGetThenSeekBar | src/com/s890510/microfilm/script/Timer.java:42-55 | a paused getElapse followed by a paused seek-bar read give the same value |
| OrderCache.IsOrder | src/com/s890510/microfilm/MicroMovieOrder.java:46-48 | a theme has an order only when a non-empty element list is cached for it; a theme never set reads as the empty list Reset installs |
| OrderCache.Reset | src/com/s890510/microfilm/MicroMovieOrder.java:23-32 | after a reset no theme has a cached order, centres or element list |
| OrderCache.SetOrderInfo | src/com/s890510/microfilm/MicroMovieOrder.java:46-63 | IsOrder holds for the theme exactly when the list is non-empty; the list is cached and the centre arrays copy each element's centre; the order list is unchanged, and every other theme keeps its element list and centres |
| OrderCache.SetOrderList | src/com/s890510/microfilm/MicroMovieOrder.java:65-69 | the theme's order and centres are the given ones; every other theme keeps its order and centres, and the element lists are unchanged |
| OrderBands.Split | src/com/s890510/microfilm/MicroMovieOrder.java:126-137 | the five bands are non-negative and sum to the counted-slot run; start, centre and end get run/6 each; the second half gets at most one more than the first; the sorted bands take at most half the run |
| OrderBands.FirstLoopRemovesAThird | src/com/s890510/microfilm/MicroMovieOrder.java:139-144 | the first removal loop runs (recount+1)/3 times, because its bound is re-read as recount shrinks |
| OrderBands.TrimBucket | src/com/s890510/microfilm/MicroMovieOrder.java:139-148 | trimming never lengthens the bucket, and a bucket no longer than the sorted bands is kept as it is |
| OrderBands.TrimBucketShape | src/com/s890510/microfilm/MicroMovieOrder.java:139-148 | a bucket longer than the sorted bands is cut to exactly their size: its first `start` ids, `center` consecutive ids after the first surplus, and its last `end` ids; a shorter bucket is kept |
| OrderBands.TrimBucketKeepsStart | src/com/s890510/microfilm/MicroMovieOrder.java:139-148 | the trimmed bucket keeps the bucket's prefix and holds only ids of the bucket |
| MovieOrder.NextInt | src/com/s890510/microfilm/MicroMovieOrder.java:252-286 | a draw below n from the random stream; an empty range is an error, as is a stream that has run dry |
| MovieOrder.PickSpaced | src/com/s890510/microfilm/MicroMovieOrder.java:252-255 | the retry loop returns a bucket position whose item is not among the recent picks when more than SPACING files exist |
| MovieOrder.Recent | src/com/s890510/microfilm/MicroMovieOrder.java:212-221 | at most `need` ids of recent slots, none of them the empty id -1 |
| MovieOrder.SpacePos | src/com/s890510/microfilm/MicroMovieOrder.java:223-240 | the look-ahead count is between 0 and RANGE+1 and never exceeds the band it looks into |
| MovieOrder.AfterPick | src/com/s890510/microfilm/MicroMovieOrder.java:257-259 | a picked item leaves the random bucket exactly when it has reached the average use count |
| MovieOrder.WindowedPick | src/com/s890510/microfilm/MicroMovieOrder.java:212-263 | the pick is an item of the random bucket, the bucket is updated by the average-count rule, one half-band slot is consumed, and nothing else changes |
| MovieOrder.ShufflePick | src/com/s890510/microfilm/MicroMovieOrder.java:273-286 | the pick is an item of the random bucket; it is appended to the space bucket, which grows by at most one entry and not at all once it holds more than SPACING |
| MovieOrder.ChooseCounted | src/com/s890510/microfilm/MicroMovieOrder.java:189-287 | the chosen item is in the pool; a cached order is replayed with its saved centres; a fresh pick restores nothing |
| MovieOrder.NextCursor | src/com/s890510/microfilm/MicroMovieOrder.java:308-312 | a video's sub-clip cursor stays within its clip list |
| MovieOrder.Place | src/com/s890510/microfilm/MicroMovieOrder.java:295-341 | a video is placed only away from the first and last slot and not right after another video, otherwise its next still frame stands in; a stand-in whose cursor or still id names no entry is the IndexOutOfRange error; a bitmap copies its size; the item's use count goes up by one |
| MovieOrder.NoItemElement | src/com/s890510/microfilm/MicroMovieOrder.java:161-165 | a no-item slot is a screen-sized bitmap naming no item and no texture, and is not restored |
| MovieOrder.UncountedElement | src/com/s890510/microfilm/MicroMovieOrder.java:167-187 | an uncounted slot shows the item as a bitmap with its size and date |
| MovieOrder.StepSlot | src/com/s890510/microfilm/MicroMovieOrder.java:159-346 | filling one slot extends the output and the order by one recorded slot, bumps the use count only of a counted slot's item, places a video only away from the ends and after a non-video, and keeps the pool's items |
| MovieOrder.Fill | src/com/s890510/microfilm/MicroMovieOrder.java:158-347 | the slot loop fills every slot while keeping each earlier slot as it was |
| MovieOrder.FilledStep | src/com/s890510/microfilm/MicroMovieOrder.java:158-347 | the loop invariant survives one slot |
| MovieOrder.AvgCount | src/com/s890510/microfilm/MicroMovieOrder.java:150 | avg+1 is the ceiling of run/total: avg·total < run ≤ (avg+1)·total |
| MovieOrder.MakePlan | src/com/s890510/microfilm/MicroMovieOrder.java:112-150 | shuffle is forced exactly when the real files are fewer than half the run; otherwise the bands are the split and the bucket is the trimmed one; the plan's average count is the ceiling |
| MovieOrder.GetTimeAndOrder | src/com/s890510/microfilm/MicroMovieOrder.java:71-354 | one element per slot, each recorded by its slot kind; videos are never adjacent; the order is cached for the theme and nothing else in the cache changes; the use counts add up to the counted slots |
| MovieOrderEncode.FindItem | src/com/s890510/microfilm/MicroMovieOrder.java:375-409 | the first pool position from j on with the given CountId, or none when no such position exists |
| MovieOrderEncode.EncodeElement | src/com/s890510/microfilm/MicroMovieOrder.java:362-411 | a slot whose item is found is rebuilt with the item's kind and date; a video keeps its sub-clip; a bitmap takes the item's size only when the slot already was a bitmap, otherwise size 0 and no location; an unknown item gives a fresh element; restore flag, time and effect are always reset |
| MovieOrderEncode.ForEncode | src/com/s890510/microfilm/MicroMovieOrder.java:356-414 | the list for the encoder has one element per slot, and each is that slot's element rebuilt against the pool |
| MovieOrderEncode.ForEncodeKeepsItems | src/com/s890510/microfilm/MicroMovieOrder.java:356-414 | with CountIds equal to positions, every slot keeps its item and kind, and a video keeps its sub-clip |
| MovieOrderEncode.ForEncodeTwice | src/com/s890510/microfilm/MicroMovieOrder.java:356-414 | rebuilding twice changes at most width, height and location |
| MovieOrderEncode.ForEncodeTwiceSizes | src/com/s890510/microfilm/MicroMovieOrder.java:396-404 | on the second rebuild a bitmap slot takes its item's size |
| EncodeFrames.TotalFrames | src/com/s890510/microfilm/EncodeAndMux.java:118 | the frame count is the duration in 20 ms frames, rounded down |
| EncodeFrames.PresentationTimeMsec | src/com/s890510/microfilm/EncodeAndMux.java:676-679 | frame j is presented at 20·j ms |
| EncodeFrames.SlotBudget | src/com/s890510/microfilm/EncodeAndMux.java:182-189 | the last slot takes the remainder; any other slot takes its own frames capped by the remainder |
| EncodeFrames.EmitSlot | src/com/s890510/microfilm/EncodeAndMux.java:195-234 | a slot of n frames stamps n frames, 20,000,000 ns apart from the slot's start time |
| EncodeFrames.PlanFrames | src/com/s890510/microfilm/EncodeAndMux.java:159-240 | totalFrame is the sum of the budgets and never exceeds TOTAL_FRAMES; the loop stops before the last slot only once TOTAL_FRAMES is reached; reaching the last slot ends on exactly TOTAL_FRAMES; with non-negative slot times every frame g is stamped 20,000,000·g ns |
| EncodeDrain.Drain | src/com/s890510/microfilm/EncodeAndMux.java:534-612 | the muxer ends up started exactly when it was started or a format change was consumed; a format change is consumed only before the start, and a second one is an error; a null buffer is an error, so no consumed buffer is null; a data buffer before the start is an error, so every consumed data buffer comes after the start; the writes are exactly the consumed data buffers, in order; every consumed buffer is released; end of stream stops the loop; try-again stops it only outside end-of-stream mode |
| EncodeDrain.Offence | src/com/s890510/microfilm/EncodeAndMux.java:557-590 | the three errors an event can raise: a format change after the start, a null buffer, and a buffer with data before the start |
| EncodeDrain.DrainOutcome | src/com/s890510/microfilm/EncodeAndMux.java:544-611 | the drain succeeds exactly when no event up to the one that ends the loop raises an error; otherwise it fails with the error of the first event that does |
| EncodeDrain.StartMux | src/com/s890510/microfilm/EncodeAndMux.java:561-569 | starting the muxer logs one track and one start and keeps the log coherent |
| EncodeDrain.HandBack | src/com/s890510/microfilm/EncodeAndMux.java:581-600 | a non-empty buffer is written and then released; an empty one is only released |
| EncodeDrain.CodecConfigNotWritten | src/com/s890510/microfilm/EncodeAndMux.java:575-579 | a codec-config buffer is released without being written |
| EncodeRelease.ReleaseEncoder | src/com/s890510/microfilm/EncodeAndMux.java:499-525 | encoder, surface and EGL are handed back exactly when held; the muxer is stopped only if started, and stays held only when that stop fails |
| EncodeRelease.ReleaseIdempotent | src/com/s890510/microfilm/EncodeAndMux.java:499-525 | after a release whose muxer stop did not fail, a second release makes no calls |
| EncodeRelease.FailedStopIsRetried | src/com/s890510/microfilm/EncodeAndMux.java:513-523 | the started flag is never cleared, so after a failed muxer stop the muxer is still held and the next release stops it again |
| EncodeOutput.DecimalInjective | src/com/s890510/microfilm/EncodeAndMux.java:486 | distinct counters give distinct decimal suffixes |
| EncodeOutput.CandidateNotPlain | src/com/s890510/microfilm/EncodeAndMux.java:482-494 | no numbered candidate coincides with the plain name |
| EncodeOutput.GetOutputPath | src/com/s890510/microfilm/EncodeAndMux.java:482-494 | the plain prefix is kept when it is free; otherwise the result is the first free numbered candidate; with fewer existing files than Integer.MAX_VALUE the returned name is always free |
| EncodeOutput.ClearUseless | src/com/s890510/microfilm/EncodeAndMux.java:398-418 | exactly the files whose names contain ".mp4" remain |
| EncodeOutput.MoviesSurviveCleanup | src/com/s890510/microfilm/EncodeAndMux.java:398-418 | a movie file survives the clean-up, and a second clean-up deletes nothing |
| EncodeOutput.FrameTimeByTheme | src/com/s890510/microfilm/EncodeAndMux.java:325-346 | the cover-frame time is between 0 and 28.5 s, and 0 exactly for Kids, Romance, City and unknown themes |
| EncodeOutput.Conclude | src/com/s890510/microfilm/EncodeAndMux.java:244-316 | an aborted encode deletes the output and reports an exception or an interruption; a later cancel deletes the output; otherwise the movie is exported and reported saved. On every path but the abort, the temporary video is removed and the directory cleaned; the abort removes only the output and leaves the other files as they were |
| EncodeOutput.MergeFailureReportedAsSaved | src/com/s890510/microfilm/EncodeAndMux.java:273-316 | a failed audio merge is reported as a saved movie |
| EncodeOutput.ConcludeIntended | src/com/s890510/microfilm/EncodeAndMux.java:273-316 | with the merge result kept, a failed merge reports an exception and exports nothing; otherwise the outcome matches Conclude |
| TexturePool.ClearProcessData | src/com/s890510/microfilm/ProcessGL.java:163-172 | the window and counts are emptied and the image and upload lists cleared; the convert list is kept; the pool invariant holds afterwards |
| TexturePool.FirstFree | src/com/s890510/microfilm/ProcessGL.java:329-340 | the lowest slot from i on whose count is 0, or none when every count is non-zero |
| TexturePool.SetBitmapUpdateInfo | src/com/s890510/microfilm/ProcessGL.java:325-352 | the lowest free slot is claimed: the element names it, its count becomes 1, its upload is queued, and its image and convert pair are overwritten or appended; with no free slot the dummy upload {0,0,0,0} is queued |
| TexturePool.IndexOf | src/com/s890510/microfilm/ProcessGL.java:370 | the first position of the image id in BitmapTexture |
| TexturePool.Evict | src/com/s890510/microfilm/ProcessGL.java:360-362 | the evicted entry's slot count drops by one exactly when the entry is non-null with InfoId > -1 |
| TexturePool.ChangeBitmap | src/com/s890510/microfilm/ProcessGL.java:354-392 | the window shifts left with the element appended; each slot count changes only by the evicted and the new entry; a listed image with a matching convert pair shares its slot with no upload; otherwise the lowest free slot is claimed and an upload queued; an element without an image sets the init flag when no update is pending |
| TexturePool.ChangeBitmapWithTimer | src/com/s890510/microfilm/ProcessGL.java:354-392 | the element's timer is reset at `now` exactly when a reset is asked for and the activity is not paused, after which it reads the time passed since `now`; otherwise the timer is untouched; the pool changes as in ChangeBitmap |
| TexturePool.CountsSumToShown | src/com/s890510/microfilm/ProcessGL.java:325-392 | refcount conservation: the slot counts add up to the number of window entries with InfoId > -1 |
| TexturePool.FreeSlotExists | src/com/s890510/microfilm/ProcessGL.java:329-340 | after the eviction, a free slot always exists when changeBitmap searches, and it lies within BitmapTexture or just past its end |
| TexturePool.ChangeBitmapKeepsInv | src/com/s890510/microfilm/ProcessGL.java:354-392 | changeBitmap keeps each slot count equal to the number of window entries holding it, and every held slot holds its entry's image |
| TexturePool.StaleConvertAfterClear | src/com/s890510/microfilm/ProcessGL.java:163-172 | after a clear, an element can share a slot that was loaded with a different convert pair |
| TexturePool.ClearProcessDataIntended | src/com/s890510/microfilm/ProcessGL.java:163-172 | a clear that also empties the convert list leaves the image and convert lists aligned |
| TexturePool.ChangeBitmapKeepsAligned | src/com/s890510/microfilm/ProcessGL.java:354-392 | with aligned lists, every shared slot carries the convert pair its user asks for, and stays so |
| TexturePool.IntendedClearStaysAligned | src/com/s890510/microfilm/ProcessGL.java:163-172 | after the intended clear, any run of changeBitmap calls keeps the invariant and the alignment |
| EncodeWindow.SetSleepZero | src/com/s890510/microfilm/ProcessGL.java:678-688 | both arrays shift left and the newest entry gets the duration and the -1 marker; nothing else changes; non-negative remaining times stay non-negative |
| EncodeWindow.FirstPositive | src/com/s890510/microfilm/ProcessGL.java:736-741 | the first index from j on with time left, or none |
| EncodeWindow.FrameZero | src/com/s890510/microfilm/ProcessGL.java:715-746 | entries shifted in by setSleepZero keep their time and restart; the others lose the previous sleep, floored at 0; the newest gets its duration and start 0; the drawn count is 5 minus the first index with time left; a second pass is asked for when more than one entry is drawn; remaining times stay non-negative |
| EncodeWindow.SkippedEntriesHaveNoTimeLeft | src/com/s890510/microfilm/ProcessGL.java:700-746 | the entries below the drawn range have no time left, and the oldest drawn one has |
| EncodeWindow.Decide | src/com/s890510/microfilm/ProcessGL.java:696-783 | a decision is about the entry asked for, which must be present; it is painted exactly when its texture is loaded; a timer is fed exactly in encode mode; in encode mode an entry below the drawn range is never drawn |
| EncodeWindow.DecideRule | src/com/s890510/microfilm/ProcessGL.java:696-783 | an entry is drawn in encode mode only within both its remaining time and mPreSleep, which is the current slot's sleep once frame 0 is done; an older entry also needs time left and time past 0 on the first pass, and its timer is fed start+elapsed; in preview, an entry is drawn while alive or while a video is waited for |
| EncodeWindow.DecisionsSound | src/com/s890510/microfilm/ProcessGL.java:693-783 | the loop lists only entries the rule draws, each once, in window order |
| EncodeWindow.DecisionsComplete | src/com/s890510/microfilm/ProcessGL.java:693-783 | every entry the rule draws is listed |
| EncodeWindow.Pass | src/com/s890510/microfilm/ProcessGL.java:690-783 | one pass over the window gives the listed draws and the window after the bookkeeping |
| EncodeWindow.Scan | src/com/s890510/microfilm/ProcessGL.java:693-783 | the loop over the five entries draws exactly the entries the drawing rule selects, in window order |
| EncodeWindow.DrawFrame | src/com/s890510/microfilm/ProcessGL.java:972-977 | the second pass runs only when the first asked for it, and a frame always ends with no second pass pending |
| EncodeWindow.FirstPassDrawsOnlyNewest | src/com/s890510/microfilm/ProcessGL.java:762-766 | at time 0 of the first pass, only the newest entry can be drawn |
| EncodeWindow.SecondPassResumesOlder | src/com/s890510/microfilm/ProcessGL.java:762-773 | on the second pass at time 0, each older entry drawn has time left and is fed the time it had already shown |
| EncodeWindow.FeedWithinRemaining | src/com/s890510/microfilm/ProcessGL.java:749-773 | every entry drawn in encode mode is fed a time: an older one between its start and its start plus its remaining time, the newest one between 0 and both its remaining time and mPreSleep, which is the current slot's sleep once frame 0 is done |
| EncodeWindow.RemainStaysNonNegative | src/com/s890510/microfilm/ProcessGL.java:678-746 | with non-negative durations, remaining times never go negative and the drawn count stays between 1 and 5 |

## Left out

- OpenGL is not modelled: shaders, effect dispatch, model matrices, `playprepare`, texture names, `doDraw` and `drawVideo`. A window entry's texture is its slot index. The `mModelMatrix == null` skip in `drawSingleBitmap` is not modelled, because the matrix comes from float geometry.
- Media player, threads and synchronisation are not modelled. This covers `synchronized` blocks, `wait`/`notify`, the pause dialog and thread interruption. Interruption and cancel appear only as flags in `EncodeOutput.RunEnd`.
- The real codec, muxer and EGL objects are not modelled. The encoder is a sequence of reported events, and the muxer is the log of calls made on it.
- `AudioMux`, `exportToGallery`, `Toast`, `regenerateScript`, `prepareEncoder`, `generateSurfaceFrame` and the progress dialog are not modelled: they are I/O or platform calls. The audio merge appears only as its failure flag.
- The temporary video path is an input to `EncodeOutput.Conclude`. Its derivation by string replacement is not modelled.
- The random retry loops are modelled with a finite stream of random numbers. Their termination and the uniformity of the picks are not modelled. A stream that runs dry is the `OutOfChoices` error.
- MovieOrder.AvgCount: computes `ceil(run / total) - 1` with integers instead of through a float cast, and requires at least one real file, the condition under which the float value is finite.
- MovieOrder.MakePlan: the run count, `mEffectCount - getNoItemSize() - getNoCountSize()`, is taken to be the number of `Counted` slots. This assumes that `getNoItemSize` counts the `CheckNoItem` slots and `getNoCountSize` the remaining `!CheckInCount` slots. `Script.java` is not part of this model. `OrderBands.Split`, `MovieOrder.AvgCount` and the use-count sum of `MovieOrder.GetTimeAndOrder` rest on the same assumption.
- MovieOrder.GetTimeAndOrder: requires each item's CountId to equal its position in the pool. The source indexes its use counts by CountId, which relies on this.
- EncodeDrain.Drain: when the events run out without a stopping event, the result is the `Starved` exit. The Java loop would instead keep polling the encoder.
- TexturePool.ChangeBitmap: leaves out the timer reset at the top of `changeBitmap`, because an element's timer is not part of `ElementInfo` here. `TexturePool.ChangeBitmapWithTimer` pairs the call with the element's `Timer.Clock` and performs the reset.
- MovieOrder.Place: `FileInfo`'s list accessors are not part of this model. A still-frame cursor or still id outside its list is the `IndexOutOfRange` error, where Java would throw.
- Timer.GetElapse: the `long` arithmetic of the clock is unbounded here, so overflow of millisecond values is not modelled.
- The face border count (`mFBorder`) is folded into `faceCount`. Geo information is an opaque optional value.
- The preview path of `drawSingleBitmap` is reduced to its gating. Its timer readings are given as each entry's `alive` flag.

## Findings

| source | as written | input that shows it | evidently intended | confidence | as-written member | corrected member |
|---|---|---|---|---|---|---|
| src/com/s890510/microfilm/EncodeAndMux.java:273-316 | the inner `finally` sets `result = true` after the merge's `catch` has set it to false | the audio merge throws; there is no cancel and no interrupt | a failed merge reports `onException` and exports nothing | medium; not executed | EncodeOutput.MergeFailureReportedAsSaved | EncodeOutput.ConcludeIntended |
| src/com/s890510/microfilm/ProcessGL.java:163-172 | `clearProcessData` clears `BitmapTexture` but keeps `BitmapTextureConvert` | load image 7 with convert (1,1); clear; load image 7 with (2,2), which is listed at 0 but whose pair is appended at 1; show image 7 with (1,1). Slot 0 is shared although it was loaded with (2,2) | the two lists stay aligned, so a shared slot carries the convert pair its user asks for | medium; not executed | TexturePool.StaleConvertAfterClear | TexturePool.ClearProcessDataIntended |

/**
 * The encode-time window bookkeeping of ProcessGL (ProcessGL.java 678-779,
 * 974-977): which of the five window entries are drawn at a given elapsed
 * time of the current slot, and what each drawn entry's timer is fed.
 *
 * mRemainTime[i] is how long entry i still has to show, mStartTime[i] how
 * far into its own effect it already is when the current slot begins (-1
 * marks an entry shifted in by setSleepZero), mPreSleep the sleep recorded
 * at the last frame 0 (the previous slot's until the current slot's frame 0
 * is done, the current slot's after), mTextureNum how many of the newest
 * entries are drawn at all.
 */
module EncodeWindow {
  import opened Basics

  /** Length of mRemainTime, mStartTime and of the element window. */
  const SLOTS := 5

  /** Index of the newest entry. */
  const LAST := 4

  /** The start-time marker setSleepZero writes. */
  const SPECIAL := -1

  datatype Window = Window(
    remain: seq<int>,   // mRemainTime
    start: seq<int>,    // mStartTime
    textureNum: int,    // mTextureNum
    needAgain: bool,    // mNeedAgain
    preSleep: int)      // mPreSleep

  predicate Valid(w: Window)
  {
    |w.remain| == SLOTS && |w.start| == SLOTS
  }

  predicate RemainNonNegative(w: Window)
    requires Valid(w)
  {
    forall j :: 0 <= j < SLOTS ==> w.remain[j] >= 0
  }

  /** The fields as the renderer is constructed. */
  function Initial(): (w: Window)
    ensures Valid(w) && RemainNonNegative(w)
    ensures w.textureNum == 1 && !w.needAgain && w.preSleep == 0
  {
    Window([0, 0, 0, 0, 0], [0, 0, 0, 0, 0], 1, false, 0)
  }

  function Max(a: int, b: int): int
  {
    if a >= b then a else b
  }

  function Min(a: int, b: int): int
  {
    if a <= b then a else b
  }

  /**
   * setSleepZero, called for a slot whose time is 0: both arrays move one
   * place towards the old end and the newest entry gets the slot's duration
   * and the special start marker.
   */
  function SetSleepZero(w: Window, duration: int): (r: Window)
    requires Valid(w)
    ensures Valid(r)
    ensures forall j :: 0 <= j < LAST ==> r.remain[j] == w.remain[j + 1] && r.start[j] == w.start[j + 1]
    ensures r.remain[LAST] == duration && r.start[LAST] == SPECIAL
    ensures r.(remain := w.remain, start := w.start) == w
    ensures RemainNonNegative(w) && duration >= 0 ==> RemainNonNegative(r)
  {
    w.(remain := w.remain[1..] + [duration], start := w.start[1..] + [SPECIAL])
  }

  /** Lines 720-724: the remaining time entry j inherits from entry j + 1. */
  function ShiftedRemain(w: Window, j: int): int
    requires Valid(w) && 0 <= j < LAST
  {
    if w.start[j + 1] == SPECIAL then w.remain[j + 1] else Max(0, w.remain[j + 1] - w.preSleep)
  }

  /** Lines 728-732: the start time entry j inherits from entry j + 1. */
  function ShiftedStart(w: Window, j: int): int
    requires Valid(w) && 0 <= j < LAST
  {
    if w.start[j + 1] == SPECIAL then 0 else w.start[j + 1] + w.preSleep
  }

  /** Index `j` is the first with time left. */
  predicate LowestPositive(s: seq<int>, j: int)
  {
    0 <= j < |s| && s[j] > 0 && forall k :: 0 <= k < j ==> s[k] <= 0
  }

  /** The search of lines 736-741, from index `j` on. */
  function FirstPositive(s: seq<int>, j: nat): (r: Option<nat>)
    requires j <= |s|
    ensures r.Some? ==> j <= r.value < |s| && s[r.value] > 0 && forall k :: j <= k < r.value ==> s[k] <= 0
    ensures r.None? <==> forall k :: j <= k < |s| ==> s[k] <= 0
    decreases |s| - j
  {
    if j == |s| then None
    else if s[j] > 0 then Some(j)
    else FirstPositive(s, j + 1)
  }

  /**
   * Lines 715-746, run when the newest entry is reached at elapsed time 0 on
   * the first pass, that is when a new slot begins: the older entries age
   * by the previous slot's sleep, the newest starts afresh, the drawn count
   * reaches back to the oldest entry with time left, and a second pass is
   * asked for when older entries are still showing.
   */
  function FrameZero(w: Window, sleep: int, duration: int): (r: Window)
    requires Valid(w)
    ensures Valid(r)
    ensures forall j :: 0 <= j < LAST ==> r.remain[j] == ShiftedRemain(w, j) && r.start[j] == ShiftedStart(w, j)
    ensures r.remain[LAST] == duration && r.start[LAST] == 0
    ensures forall j :: LowestPositive(r.remain, j) ==> r.textureNum == SLOTS - j
    ensures (forall j :: 0 <= j < SLOTS ==> r.remain[j] <= 0) ==> r.textureNum == w.textureNum
    ensures r.needAgain == (w.needAgain || r.textureNum > 1)
    ensures r.preSleep == sleep
    ensures RemainNonNegative(w) && duration >= 0 ==> RemainNonNegative(r)
    ensures 1 <= w.textureNum <= SLOTS ==> 1 <= r.textureNum <= SLOTS
  {
    var remain := seq(SLOTS, j requires 0 <= j < SLOTS => if j == LAST then duration else ShiftedRemain(w, j));
    var start := seq(SLOTS, j requires 0 <= j < SLOTS => if j == LAST then 0 else ShiftedStart(w, j));
    var textureNum := match FirstPositive(remain, 0) case Some(j) => SLOTS - j case None => w.textureNum;
    var r := Window(remain, start, textureNum, w.needAgain || textureNum > 1, sleep);
    assert forall j :: LowestPositive(r.remain, j) ==> FirstPositive(remain, 0) == Some(j);
    r
  }

  /**
   * The entries older than the drawn range have no time left, so leaving
   * them out of both passes drops nothing that should still show.
   */
  lemma SkippedEntriesHaveNoTimeLeft(w: Window, sleep: int, duration: int)
    requires Valid(w)
    requires duration > 0
    ensures var r := FrameZero(w, sleep, duration);
            && 1 <= r.textureNum <= SLOTS
            && r.remain[SLOTS - r.textureNum] > 0
            && forall j :: 0 <= j < SLOTS - r.textureNum ==> r.remain[j] <= 0
  {
    var r := FrameZero(w, sleep, duration);
    var j := FirstPositive(r.remain, 0).value;
    assert LowestPositive(r.remain, j);
  }

  // ---------------------------------------------------------------------
  // Drawing

  /** What the loop reads of a window entry: its effect's sleep and duration, its timer's isAlive, and whether its texture is still missing (TextureId == -1 with InfoId > -1). */
  datatype Entry = Entry(sleep: int, duration: int, alive: bool, unloaded: bool)

  /** One entry the loop reaches the draw step with: the value fed to its timer in encode mode, and whether it is painted. */
  datatype Draw = Draw(slot: int, feed: Option<int>, painted: bool)

  /** The window once the loop has reached the newest entry. */
  function Bookkept(w: Window, entries: seq<Option<Entry>>, elapse: int, second: bool): (r: Window)
    requires Valid(w) && |entries| == SLOTS
    ensures Valid(r)
    ensures elapse != 0 || second ==> r == w
  {
    if elapse == 0 && !second && entries[LAST].Some? && LAST >= SLOTS - w.textureNum then
      FrameZero(w, entries[LAST].value.sleep, entries[LAST].value.duration)
    else w
  }

  /**
   * Lines 696-783 for entry i, given the window `w` the pass started with
   * and the window `b` after the bookkeeping done at the newest entry.
   */
  function Decide(w: Window, b: Window, entries: seq<Option<Entry>>, i: int, elapse: int, second: bool, videoWait: bool): (r: Option<Draw>)
    requires Valid(w) && Valid(b) && |entries| == SLOTS && 0 <= i < SLOTS
    ensures r.Some? ==> r.value.slot == i && entries[i].Some?
    ensures r.Some? ==> r.value.painted == !entries[i].value.unloaded
    ensures r.Some? ==> (r.value.feed.Some? <==> elapse >= 0)
    ensures elapse >= 0 && i < SLOTS - w.textureNum ==> r.None?
  {
    if entries[i].None? then None
    else
      var e := entries[i].value;
      if elapse >= 0 then
        if i < SLOTS - w.textureNum then None
        else if i == LAST then
          if b.needAgain then None
          else if elapse > Min(b.remain[i], b.preSleep) then None
          else Some(Draw(i, Some(elapse), !e.unloaded))
        else if elapse == 0 && !second then None
        else if elapse > Min(w.preSleep, w.remain[i]) || w.remain[i] == 0 then None
        else Some(Draw(i, Some(w.start[i] + elapse), !e.unloaded))
      else if !e.alive && !videoWait then None
      else Some(Draw(i, None, !e.unloaded))
  }

  /**
   * The drawing rule. In preview (negative elapsed time) a present entry is
   * drawn while its timer is alive or a video is being waited for. In
   * encode mode only entries in the drawn range count; an older entry is
   * drawn once past time 0 of the first pass, while the elapsed time is
   * within both its remaining time and mPreSleep (the current slot's sleep
   * once its frame 0 is done) and it has time
   * left, its timer fed its start time plus the elapsed time; the newest is
   * drawn on the same time terms after the bookkeeping, unless a second
   * pass is pending, its timer fed the elapsed time. Drawn entries whose
   * texture is missing are not painted.
   */
  lemma DecideRule(w: Window, b: Window, entries: seq<Option<Entry>>, i: int, elapse: int, second: bool, videoWait: bool)
    requires Valid(w) && Valid(b) && |entries| == SLOTS && 0 <= i < SLOTS
    ensures var r := Decide(w, b, entries, i, elapse, second, videoWait);
            && (r.Some? ==> entries[i].Some? && r.value.painted == !entries[i].value.unloaded)
            && (elapse < 0 ==> (r.Some? <==> entries[i].Some? && (entries[i].value.alive || videoWait)))
            && (elapse < 0 && r.Some? ==> r.value.feed.None?)
            && (elapse >= 0 && i < LAST ==>
                 (r.Some? <==> && entries[i].Some? && i >= SLOTS - w.textureNum
                               && (elapse > 0 || second)
                               && elapse <= w.remain[i] && elapse <= w.preSleep && w.remain[i] != 0))
            && (elapse >= 0 && i < LAST && r.Some? ==> r.value.feed == Some(w.start[i] + elapse))
            && (elapse >= 0 && i == LAST ==>
                 (r.Some? <==> && entries[i].Some? && i >= SLOTS - w.textureNum && !b.needAgain
                               && elapse <= b.remain[i] && elapse <= b.preSleep))
            && (elapse >= 0 && i == LAST && r.Some? ==> r.value.feed == Some(elapse))
  {
  }

  /** The decision for every entry of the window, by index. */
  function Verdicts(w: Window, b: Window, entries: seq<Option<Entry>>, elapse: int, second: bool, videoWait: bool): (vs: seq<Option<Draw>>)
    requires Valid(w) && Valid(b) && |entries| == SLOTS
    ensures |vs| == SLOTS
    ensures forall i :: 0 <= i < SLOTS ==> vs[i] == Decide(w, b, entries, i, elapse, second, videoWait)
  {
    seq(SLOTS, i requires 0 <= i < SLOTS => Decide(w, b, entries, i, elapse, second, videoWait))
  }

  /** The drawn entries among vs[i..], in order. */
  function Listing(vs: seq<Option<Draw>>, i: nat): seq<Draw>
    requires i <= |vs|
    decreases |vs| - i
  {
    if i == |vs| then []
    else (if vs[i].Some? then [vs[i].value] else []) + Listing(vs, i + 1)
  }

  /** The entries from index i on that reach the draw step, in window order. */
  function Decisions(w: Window, b: Window, entries: seq<Option<Entry>>, i: nat, elapse: int, second: bool, videoWait: bool): (ds: seq<Draw>)
    requires Valid(w) && Valid(b) && |entries| == SLOTS && i <= SLOTS
    ensures forall d :: d in ds ==> i <= d.slot < SLOTS
  {
    var vs := Verdicts(w, b, entries, elapse, second, videoWait);
    VerdictsSlots(w, b, entries, elapse, second, videoWait);
    ListingSound(vs, i);
    Listing(vs, i)
  }

  lemma VerdictsSlots(w: Window, b: Window, entries: seq<Option<Entry>>, elapse: int, second: bool, videoWait: bool)
    requires Valid(w) && Valid(b) && |entries| == SLOTS
    ensures var vs := Verdicts(w, b, entries, elapse, second, videoWait);
            forall j :: 0 <= j < |vs| && vs[j].Some? ==> vs[j].value.slot == j
  {
    var vs := Verdicts(w, b, entries, elapse, second, videoWait);
    forall j | 0 <= j < |vs| && vs[j].Some?
      ensures vs[j].value.slot == j
    {
      assert vs[j] == Decide(w, b, entries, j, elapse, second, videoWait);
    }
  }

  /** `ds` lists, in increasing slot order, entries of `vs` from index i on, each under its own slot. */
  predicate ListedFrom(vs: seq<Option<Draw>>, ds: seq<Draw>, i: nat)
  {
    && (forall k :: 0 <= k < |ds| ==> i <= ds[k].slot < |vs| && vs[ds[k].slot] == Some(ds[k]))
    && (forall k, m :: 0 <= k < m < |ds| ==> ds[k].slot < ds[m].slot)
  }

  lemma {:induction false} ListingSound(vs: seq<Option<Draw>>, i: nat)
    requires i <= |vs|
    requires forall j :: 0 <= j < |vs| && vs[j].Some? ==> vs[j].value.slot == j
    ensures ListedFrom(vs, Listing(vs, i), i)
    ensures forall d :: d in Listing(vs, i) ==> i <= d.slot < |vs|
    decreases |vs| - i
  {
    var ds := Listing(vs, i);
    if i < |vs| {
      ListingSound(vs, i + 1);
      var rest := Listing(vs, i + 1);
      if vs[i].Some? {
        assert ds == [vs[i].value] + rest;
        ListedCons(vs, i, rest);
      } else {
        assert ds == rest;
        ListedWeaken(vs, rest, i);
      }
    }
    ListedBounds(vs, ds, i);
  }

  lemma ListedWeaken(vs: seq<Option<Draw>>, ds: seq<Draw>, i: nat)
    requires ListedFrom(vs, ds, i + 1)
    ensures ListedFrom(vs, ds, i)
  {
  }

  lemma ListedBounds(vs: seq<Option<Draw>>, ds: seq<Draw>, i: nat)
    requires ListedFrom(vs, ds, i)
    ensures forall d :: d in ds ==> i <= d.slot < |vs|
  {
    forall d | d in ds
      ensures i <= d.slot < |vs|
    {
      var k :| 0 <= k < |ds| && ds[k] == d;
    }
  }

  /** An entry drawn at index i, put before a listing from i+1, gives a listing from i. */
  lemma ListedCons(vs: seq<Option<Draw>>, i: nat, rest: seq<Draw>)
    requires i < |vs| && vs[i].Some? && vs[i].value.slot == i
    requires ListedFrom(vs, rest, i + 1)
    ensures ListedFrom(vs, [vs[i].value] + rest, i)
  {
    var ds := [vs[i].value] + rest;
    assert forall k :: 1 <= k < |ds| ==> ds[k] == rest[k - 1];
  }

  lemma {:induction false} ListingComplete(vs: seq<Option<Draw>>, i: nat, j: int)
    requires i <= j < |vs| && vs[j].Some?
    ensures vs[j].value in Listing(vs, i)
    decreases |vs| - i
  {
    if i < j {
      ListingComplete(vs, i + 1, j);
    }
  }

  /** Every listed entry is one the rule draws, listed once, in window order. */
  lemma DecisionsSound(w: Window, b: Window, entries: seq<Option<Entry>>, i: nat, elapse: int, second: bool, videoWait: bool)
    requires Valid(w) && Valid(b) && |entries| == SLOTS && i <= SLOTS
    ensures var ds := Decisions(w, b, entries, i, elapse, second, videoWait);
            && (forall k :: 0 <= k < |ds| ==> i <= ds[k].slot < SLOTS)
            && (forall k, m :: 0 <= k < m < |ds| ==> ds[k].slot < ds[m].slot)
            && (forall k :: 0 <= k < |ds| ==> Decide(w, b, entries, ds[k].slot, elapse, second, videoWait) == Some(ds[k]))
  {
    var vs := Verdicts(w, b, entries, elapse, second, videoWait);
    VerdictsSlots(w, b, entries, elapse, second, videoWait);
    ListingSound(vs, i);
    assert Decisions(w, b, entries, i, elapse, second, videoWait) == Listing(vs, i);
  }

  /** Every entry the rule draws is listed. */
  lemma DecisionsComplete(w: Window, b: Window, entries: seq<Option<Entry>>, i: nat, j: int, elapse: int, second: bool, videoWait: bool)
    requires Valid(w) && Valid(b) && |entries| == SLOTS && i <= j < SLOTS
    requires Decide(w, b, entries, j, elapse, second, videoWait).Some?
    ensures Decide(w, b, entries, j, elapse, second, videoWait).value in Decisions(w, b, entries, i, elapse, second, videoWait)
  {
    ListingComplete(Verdicts(w, b, entries, elapse, second, videoWait), i, j);
  }

  /** The window a pass ends with. */
  function PassWindow(w: Window, entries: seq<Option<Entry>>, elapse: int, second: bool): (r: Window)
    requires Valid(w) && |entries| == SLOTS
    ensures Valid(r)
  {
    if elapse >= 0 then Bookkept(w, entries, elapse, second) else w
  }

  /**
   * The loop of drawSingleBitmap over the window, given the window `w` the
   * pass started with and the window `b` the bookkeeping at the newest
   * entry produces: older entries are decided against `w`, the newest one
   * against `b`.
   */
  method Scan(w: Window, b: Window, entries: seq<Option<Entry>>, elapse: int, second: bool, videoWait: bool)
      returns (draws: seq<Draw>)
    requires Valid(w) && Valid(b) && |entries| == SLOTS
    ensures draws == Decisions(w, b, entries, 0, elapse, second, videoWait)
  {
    var verdicts := Verdicts(w, b, entries, elapse, second, videoWait);
    draws := [];
    var i := 0;
    while i < SLOTS
      invariant 0 <= i <= SLOTS
      invariant draws + Listing(verdicts, i) == Listing(verdicts, 0)
    {
      var d := verdicts[i];
      if d.Some? {
        draws := draws + [d.value];
      }
      i := i + 1;
    }
  }

  /** One pass of drawSingleBitmap: the bookkeeping and the loop's draws. */
  method Pass(w: Window, entries: seq<Option<Entry>>, elapse: int, second: bool, videoWait: bool)
      returns (r: Window, draws: seq<Draw>)
    requires Valid(w) && |entries| == SLOTS
    ensures r == PassWindow(w, entries, elapse, second)
    ensures draws == Decisions(w, r, entries, 0, elapse, second, videoWait)
  {
    r := PassWindow(w, entries, elapse, second);
    draws := Scan(w, r, entries, elapse, second, videoWait);
  }

  /**
   * One encoder frame (or preview frame): a first pass, and a second one
   * over the same elapsed time when the first asked for it (lines 974-977).
   * The second pass never asks again.
   */
  method DrawFrame(w: Window, entries: seq<Option<Entry>>, elapse: int, videoWait: bool)
      returns (r: Window, draws: seq<Draw>)
    requires Valid(w) && |entries| == SLOTS
    ensures Valid(r) && !r.needAgain
    ensures var b := PassWindow(w, entries, elapse, false);
            && r == b.(needAgain := false)
            && draws == Decisions(w, b, entries, 0, elapse, false, videoWait)
                        + (if b.needAgain then Decisions(r, r, entries, 0, elapse, true, videoWait) else [])
  {
    var first;
    r, first := Pass(w, entries, elapse, false, videoWait);
    if r.needAgain {
      r := r.(needAgain := false);
      var again;
      var r2;
      r2, again := Pass(r, entries, elapse, true, videoWait);
      assert r2 == r;
      draws := first + again;
    } else {
      draws := first;
    }
  }

  /** On the first pass at time 0 of a slot only the newest entry can be drawn. */
  lemma FirstPassDrawsOnlyNewest(w: Window, b: Window, entries: seq<Option<Entry>>, videoWait: bool)
    requires Valid(w) && Valid(b) && |entries| == SLOTS
    ensures forall d :: d in Decisions(w, b, entries, 0, 0, false, videoWait) ==> d.slot == LAST
  {
    var ds := Decisions(w, b, entries, 0, 0, false, videoWait);
    DecisionsSound(w, b, entries, 0, 0, false, videoWait);
    forall d | d in ds
      ensures d.slot == LAST
    {
      var k :| 0 <= k < |ds| && ds[k] == d;
      DecideRule(w, b, entries, d.slot, 0, false, videoWait);
    }
  }

  /**
   * The older entries still showing are drawn by the second pass at time 0,
   * each fed the time it had already shown.
   */
  lemma SecondPassResumesOlder(b: Window, entries: seq<Option<Entry>>, videoWait: bool)
    requires Valid(b) && |entries| == SLOTS
    requires RemainNonNegative(b)
    ensures forall d :: d in Decisions(b, b, entries, 0, 0, true, videoWait) && d.slot < LAST ==>
              d.feed == Some(b.start[d.slot]) && b.remain[d.slot] > 0
  {
    var ds := Decisions(b, b, entries, 0, 0, true, videoWait);
    DecisionsSound(b, b, entries, 0, 0, true, videoWait);
    forall d | d in ds && d.slot < LAST
      ensures d.feed == Some(b.start[d.slot]) && b.remain[d.slot] > 0
    {
      var k :| 0 <= k < |ds| && ds[k] == d;
      DecideRule(b, b, entries, d.slot, 0, true, videoWait);
    }
  }

  /**
   * In encode mode every listed entry is fed a time within its own
   * remaining time: from its start time to its start time plus what remains.
   */
  lemma FeedWithinRemaining(w: Window, b: Window, entries: seq<Option<Entry>>, elapse: int, second: bool, videoWait: bool, d: Draw)
    requires Valid(w) && Valid(b) && |entries| == SLOTS && elapse >= 0
    requires d in Decisions(w, b, entries, 0, elapse, second, videoWait)
    ensures d.feed.Some?
    ensures d.slot < LAST ==> w.start[d.slot] <= d.feed.value <= w.start[d.slot] + w.remain[d.slot]
    ensures d.slot == LAST ==> 0 <= d.feed.value <= b.remain[LAST] && d.feed.value <= b.preSleep
  {
    var ds := Decisions(w, b, entries, 0, elapse, second, videoWait);
    DecisionsSound(w, b, entries, 0, elapse, second, videoWait);
    var k :| 0 <= k < |ds| && ds[k] == d;
    DecideRule(w, b, entries, d.slot, elapse, second, videoWait);
  }

  // ---------------------------------------------------------------------
  // Runs of slots

  /** What the encoder does to the window between frames: setSleepZero for a zero-time slot, or time 0 of a new slot. */
  datatype Event = SleepZero(duration: int) | NewSlot(sleep: int, duration: int)

  function Apply(w: Window, ev: Event): (r: Window)
    requires Valid(w)
    ensures Valid(r)
  {
    match ev
    case SleepZero(d) => SetSleepZero(w, d)
    case NewSlot(s, d) => FrameZero(w, s, d)
  }

  function ApplyAll(w: Window, evs: seq<Event>): (r: Window)
    requires Valid(w)
    ensures Valid(r)
    decreases |evs|
  {
    if |evs| == 0 then w else ApplyAll(Apply(w, evs[0]), evs[1..])
  }

  predicate NonNegativeDurations(evs: seq<Event>)
  {
    forall k :: 0 <= k < |evs| ==> evs[k].duration >= 0
  }

  /**
   * With non-negative durations the remaining times never go negative and
   * the drawn count stays between 1 and 5, from construction on.
   */
  lemma {:induction false} RemainStaysNonNegative(w: Window, evs: seq<Event>)
    requires Valid(w) && RemainNonNegative(w) && 1 <= w.textureNum <= SLOTS
    requires NonNegativeDurations(evs)
    ensures RemainNonNegative(ApplyAll(w, evs))
    ensures 1 <= ApplyAll(w, evs).textureNum <= SLOTS
    decreases |evs|
  {
    if |evs| > 0 {
      var w' := Apply(w, evs[0]);
      assert evs[0].duration >= 0;
      assert RemainNonNegative(w') && 1 <= w'.textureNum <= SLOTS;
      assert NonNegativeDurations(evs[1..]) by {
        forall k | 0 <= k < |evs[1..]| ensures evs[1..][k].duration >= 0 {
          assert evs[1..][k] == evs[k + 1];
        }
      }
      RemainStaysNonNegative(w', evs[1..]);
    }
  }

  lemma FromInitial(evs: seq<Event>)
    requires NonNegativeDurations(evs)
    ensures RemainNonNegative(ApplyAll(Initial(), evs))
    ensures 1 <= ApplyAll(Initial(), evs).textureNum <= SLOTS
  {
    RemainStaysNonNegative(Initial(), evs);
  }
}

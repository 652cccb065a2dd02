/**
 * The bitmap texture pool of ProcessGL (ProcessGL.java 163-172, 325-392):
 * a window of the five most recent elements (mProcessData), a reference
 * count per texture slot (mBitmapTextureCount), the image id and convert
 * pair last uploaded to each slot (BitmapTexture, BitmapTextureConvert) and
 * the queue of uploads still to be done (WaitBitmapTexture).
 *
 * Texture names are opaque: a slot is its index. The ElementInfo objects of
 * the window are values here, so setting TextureId yields a new element.
 */
module TexturePool {
  import opened Basics
  import opened Elements
  import Timer

  /** Length of mProcessData and of mBitmapTextureCount. */
  const SLOTS := 5

  /** BitmapTextureConvert's pair: convert type and convert size. */
  datatype Convert = Convert(convertType: int, convertSize: int)

  /** One entry of WaitBitmapTexture: {slot, InfoId, convert type, convert size}. */
  datatype Upload = Upload(slot: int, infoId: int, convertType: int, convertSize: int)

  datatype Pool = Pool(
    window: seq<Option<ElementInfo>>,  // mProcessData
    counts: seq<int>,                  // mBitmapTextureCount
    textures: seq<int>,                // BitmapTexture
    converts: seq<Convert>,            // BitmapTextureConvert
    waiting: seq<Upload>,              // WaitBitmapTexture
    bitmapUpdate: bool,                // mBitmapUpdate
    bitmapInit: bool)                  // mBitmapinit

  /** What changeBitmap and setBitmapUpdateInfo leave behind: the pool and the updated element. */
  datatype Change = Change(pool: Pool, info: ElementInfo)

  function ConvertOf(e: ElementInfo): Convert
  {
    Convert(e.effect.convertType, e.effect.convertSize)
  }

  /** A window entry that holds a texture reference: non-null with InfoId > -1. */
  predicate Shown(x: Option<ElementInfo>)
  {
    x.Some? && x.value.infoId > -1
  }

  function Holds(x: Option<ElementInfo>, t: int): nat
  {
    if Shown(x) && x.value.textureId == t then 1 else 0
  }

  /** Number of window entries that hold slot `t`. */
  function Users(w: seq<Option<ElementInfo>>, t: int): nat
  {
    if |w| == 0 then 0 else Holds(w[0], t) + Users(w[1..], t)
  }

  /** Number of window entries that hold some texture. */
  function ShownCount(w: seq<Option<ElementInfo>>): nat
  {
    if |w| == 0 then 0 else (if Shown(w[0]) then 1 else 0) + ShownCount(w[1..])
  }

  /** The element's image is what the slot it names was last loaded with. */
  predicate Loaded(p: Pool, e: ElementInfo)
  {
    0 <= e.textureId < |p.textures| && p.textures[e.textureId] == e.infoId
  }

  /**
   * The pool invariant: every slot's count is the number of window entries
   * holding it, every held slot was loaded with the entry's image, and only
   * slots below the length of BitmapTexture are in use.
   */
  predicate Inv(p: Pool)
  {
    && |p.window| == SLOTS && |p.counts| == SLOTS
    && |p.textures| <= SLOTS && |p.textures| <= |p.converts|
    && (forall t :: 0 <= t < SLOTS ==> p.counts[t] == Users(p.window, t))
    && (forall k :: 0 <= k < SLOTS && Shown(p.window[k]) ==> Loaded(p, p.window[k].value))
    && (forall t :: 0 <= t < SLOTS && p.counts[t] > 0 ==> t < |p.textures|)
  }

  function EmptyWindow(): (w: seq<Option<ElementInfo>>)
    ensures |w| == SLOTS && forall k :: 0 <= k < SLOTS ==> w[k].None?
  {
    [None, None, None, None, None]
  }

  function ZeroCounts(): (c: seq<int>)
    ensures |c| == SLOTS && forall t :: 0 <= t < SLOTS ==> c[t] == 0
  {
    [0, 0, 0, 0, 0]
  }

  lemma {:induction false} NoUsers(w: seq<Option<ElementInfo>>, t: int)
    requires forall k :: 0 <= k < |w| ==> w[k].None?
    ensures Users(w, t) == 0
    decreases |w|
  {
    if |w| > 0 {
      NoUsers(w[1..], t);
    }
  }

  /** The pool as the renderer is constructed. */
  function Initial(): (p: Pool)
    ensures Inv(p)
    ensures p.textures == [] && p.converts == [] && p.waiting == []
  {
    var p := Pool(EmptyWindow(), ZeroCounts(), [], [], [], false, false);
    NoUsersIn(p.window);
    p
  }

  lemma NoUsersIn(w: seq<Option<ElementInfo>>)
    requires forall k :: 0 <= k < |w| ==> w[k].None?
    ensures forall t :: Users(w, t) == 0
  {
    forall t {
      NoUsers(w, t);
    }
  }

  /**
   * clearProcessData: empties the window, zeroes the counts and clears
   * BitmapTexture and WaitBitmapTexture. BitmapTextureConvert is kept.
   */
  function ClearProcessData(p: Pool): (r: Pool)
    ensures Inv(r)
    ensures forall k :: 0 <= k < SLOTS ==> r.window[k].None? && r.counts[k] == 0
    ensures r.textures == [] && r.waiting == []
    ensures r.converts == p.converts
    ensures r.bitmapUpdate == p.bitmapUpdate && r.bitmapInit == p.bitmapInit
  {
    var r := p.(window := EmptyWindow(), counts := ZeroCounts(), textures := [], waiting := []);
    NoUsersIn(r.window);
    r
  }

  /** Slot `i` is the lowest one whose count is 0. */
  predicate LowestFree(counts: seq<int>, i: int)
  {
    0 <= i < |counts| && counts[i] == 0 && forall t :: 0 <= t < i ==> counts[t] != 0
  }

  /** The search loop of setBitmapUpdateInfo, from index `i` on. */
  function FirstFree(counts: seq<int>, i: nat): (r: Option<nat>)
    requires i <= |counts|
    ensures r.Some? ==> i <= r.value < |counts| && counts[r.value] == 0
    ensures r.Some? ==> forall t :: i <= t < r.value ==> counts[t] != 0
    ensures r.None? <==> forall t :: i <= t < |counts| ==> counts[t] != 0
    decreases |counts| - i
  {
    if i == |counts| then None
    else if counts[i] == 0 then Some(i)
    else FirstFree(counts, i + 1)
  }

  /**
   * setBitmapUpdateInfo: claims the lowest free slot for the element, queues
   * its upload and records the image and convert pair of the slot, in place
   * when the slot is already listed and appended otherwise. With no free
   * slot the upload {0, 0, 0, 0} is queued and the element keeps its slot.
   */
  function SetBitmapUpdateInfo(p: Pool, e: ElementInfo): (r: Change)
    requires |p.textures| <= |p.converts|
    ensures r.pool.window == p.window && r.pool.bitmapInit == p.bitmapInit
    ensures r.pool.bitmapUpdate
    ensures r.info == e.(textureId := r.info.textureId)
    ensures forall i :: LowestFree(p.counts, i) ==>
              && r.info.textureId == i
              && r.pool.counts == p.counts[i := 1]
              && r.pool.waiting == p.waiting + [Upload(i, e.infoId, e.effect.convertType, e.effect.convertSize)]
              && (i < |p.textures| ==> r.pool.textures == p.textures[i := e.infoId]
                                       && r.pool.converts == p.converts[i := ConvertOf(e)])
              && (i >= |p.textures| ==> r.pool.textures == p.textures + [e.infoId]
                                        && r.pool.converts == p.converts + [ConvertOf(e)])
    ensures (forall t :: 0 <= t < |p.counts| ==> p.counts[t] != 0) ==>
              && r.info == e && r.pool.counts == p.counts
              && r.pool.waiting == p.waiting + [Upload(0, 0, 0, 0)]
    ensures |r.pool.textures| <= |r.pool.converts|
  {
    var (info, id, counts) :=
      match FirstFree(p.counts, 0)
      case Some(i) =>
        (e.(textureId := i), Upload(i, e.infoId, e.effect.convertType, e.effect.convertSize), p.counts[i := p.counts[i] + 1])
      case None =>
        (e, Upload(0, 0, 0, 0), p.counts);
    var convert := Convert(id.convertType, id.convertSize);
    var (textures, converts) :=
      if |p.textures| - 1 >= id.slot then (p.textures[id.slot := id.infoId], p.converts[id.slot := convert])
      else (p.textures + [id.infoId], p.converts + [convert]);
    Change(p.(counts := counts, waiting := p.waiting + [id], textures := textures, converts := converts, bitmapUpdate := true), info)
  }

  /** List.indexOf for an element known to be present. */
  function IndexOf(s: seq<int>, x: int): (i: nat)
    requires x in s
    ensures i < |s| && s[i] == x && x !in s[..i]
  {
    if s[0] == x then 0
    else
      var j := IndexOf(s[1..], x);
      assert s[..j + 1] == [s[0]] + s[1..][..j];
      j + 1
  }

  /** Lines 360-362: the entry leaving the window gives its slot back. */
  function Evict(p: Pool): (counts: seq<int>)
    requires Inv(p)
    ensures |counts| == SLOTS
    ensures forall t :: 0 <= t < SLOTS ==> counts[t] == p.counts[t] - Holds(p.window[0], t)
  {
    if Shown(p.window[0]) then
      assert Loaded(p, p.window[0].value);
      p.counts[p.window[0].value.textureId := p.counts[p.window[0].value.textureId] - 1]
    else p.counts
  }

  /** The element's image is listed with a matching convert pair, so its slot is shared. */
  predicate Reusable(p: Pool, e: ElementInfo)
    requires |p.textures| <= |p.converts|
  {
    e.infoId in p.textures && p.converts[IndexOf(p.textures, e.infoId)] == ConvertOf(e)
  }

  /**
   * changeBitmap: releases the evicted entry's slot, then shares, or
   * claims, a slot for the new element, and shifts it into the window.
   */
  function ChangeBitmap(p: Pool, e: ElementInfo): (r: Change)
    requires Inv(p)
    ensures r.pool.window == p.window[1..] + [Some(r.info)]
    ensures r.info == e.(textureId := r.info.textureId)
    ensures |r.pool.counts| == SLOTS
    ensures forall t :: 0 <= t < SLOTS ==>
              r.pool.counts[t] == p.counts[t] - Holds(p.window[0], t) + Holds(Some(r.info), t)
    ensures e.infoId <= -1 ==>
              && r.info == e
              && r.pool.textures == p.textures && r.pool.converts == p.converts && r.pool.waiting == p.waiting
              && r.pool.bitmapUpdate == p.bitmapUpdate
              && r.pool.bitmapInit == (p.bitmapInit || !p.bitmapUpdate)
    ensures e.infoId > -1 && Reusable(p, e) ==>
              && r.info.textureId == IndexOf(p.textures, e.infoId)
              && r.pool.textures == p.textures && r.pool.converts == p.converts && r.pool.waiting == p.waiting
    ensures e.infoId > -1 && !Reusable(p, e) ==>
              && LowestFree(Evict(p), r.info.textureId)
              && r.info.textureId <= |p.textures|
              && r.pool.waiting == p.waiting + [Upload(r.info.textureId, e.infoId, e.effect.convertType, e.effect.convertSize)]
              && r.pool.bitmapUpdate
  {
    var counts := Evict(p);
    var p1 := p.(counts := counts);
    var q :=
      if e.infoId > -1 then
        if e.infoId !in p.textures then
          FreeSlotExists(p);
          SetBitmapUpdateInfo(p1, e)
        else
          var index := IndexOf(p.textures, e.infoId);
          if p.converts[index] == ConvertOf(e) then
            Change(p1.(counts := counts[index := counts[index] + 1]), e.(textureId := index))
          else
            FreeSlotExists(p);
            SetBitmapUpdateInfo(p1, e)
      else
        Change(p1.(bitmapInit := if !p.bitmapUpdate && !p.bitmapInit then true else p.bitmapInit), e);
    Change(q.pool.(window := p.window[1..] + [Some(q.info)]), q.info)
  }

  /**
   * changeBitmap(eInfo, resetTimer) as a whole: lines 355-356 first reset the
   * element's timer when the caller asks for it and the activity is not
   * paused, then the pool changes as ChangeBitmap says. The element's timer
   * is kept beside the element, whose other fields are values here.
   */
  function ChangeBitmapWithTimer(p: Pool, e: ElementInfo, clock: Timer.Clock, resetTimer: bool, paused: bool, now: int)
    : (r: (Change, Timer.Clock))
    requires Inv(p)
    ensures r.0 == ChangeBitmap(p, e)
    ensures resetTimer && !paused ==> forall later :: Timer.Since(r.1, later) == later - now
    ensures !(resetTimer && !paused) ==> r.1 == clock
    ensures r.1.total == clock.total && r.1.elapseForEncode == clock.elapseForEncode
  {
    (ChangeBitmap(p, e), if resetTimer && !paused then Timer.ResetTimer(clock, now) else clock)
  }

  // ---------------------------------------------------------------------
  // Counting lemmas

  lemma {:induction false} UsersAppend(w: seq<Option<ElementInfo>>, x: Option<ElementInfo>, t: int)
    ensures Users(w + [x], t) == Users(w, t) + Holds(x, t)
    decreases |w|
  {
    if |w| == 0 {
      assert w + [x] == [x];
      assert [x][1..] == [];
    } else {
      assert (w + [x])[1..] == w[1..] + [x];
      UsersAppend(w[1..], x, t);
    }
  }

  /** An entry that holds slot `t` is counted among its users. */
  lemma {:induction false} UsersPositive(w: seq<Option<ElementInfo>>, k: nat)
    requires k < |w| && Shown(w[k])
    ensures Users(w, w[k].value.textureId) >= 1
    decreases k
  {
    if k > 0 {
      assert w[1..][k - 1] == w[k];
      UsersPositive(w[1..], k - 1);
    }
  }

  /** Sum of Users(w, t) over the slots t below n. */
  function UsersBelow(w: seq<Option<ElementInfo>>, n: nat): nat
  {
    if n == 0 then 0 else UsersBelow(w, n - 1) + Users(w, n - 1)
  }

  /** Number of entries holding a slot below n. */
  function ShownBelow(w: seq<Option<ElementInfo>>, n: nat): nat
  {
    if |w| == 0 then 0
    else (if Shown(w[0]) && 0 <= w[0].value.textureId < n then 1 else 0) + ShownBelow(w[1..], n)
  }

  function HoldsBelow(x: Option<ElementInfo>, n: nat): nat
  {
    if n == 0 then 0 else HoldsBelow(x, n - 1) + Holds(x, n - 1)
  }

  lemma {:induction false} HoldsBelowOne(x: Option<ElementInfo>, n: nat)
    ensures HoldsBelow(x, n) == if Shown(x) && 0 <= x.value.textureId < n then 1 else 0
  {
    if n > 0 {
      HoldsBelowOne(x, n - 1);
    }
  }

  lemma {:induction false} UsersBelowSplit(w: seq<Option<ElementInfo>>, n: nat)
    requires |w| > 0
    ensures UsersBelow(w, n) == HoldsBelow(w[0], n) + UsersBelow(w[1..], n)
  {
    if n > 0 {
      UsersBelowSplit(w, n - 1);
    }
  }

  /** Summing the per-slot user counts counts every holding entry once. */
  lemma {:induction false} UsersBelowIsShownBelow(w: seq<Option<ElementInfo>>, n: nat)
    ensures UsersBelow(w, n) == ShownBelow(w, n)
    decreases |w|
  {
    if |w| == 0 {
      UsersBelowEmpty(w, n);
    } else {
      UsersBelowSplit(w, n);
      HoldsBelowOne(w[0], n);
      UsersBelowIsShownBelow(w[1..], n);
    }
  }

  lemma {:induction false} UsersBelowEmpty(w: seq<Option<ElementInfo>>, n: nat)
    requires |w| == 0
    ensures UsersBelow(w, n) == 0
  {
    if n > 0 {
      UsersBelowEmpty(w, n - 1);
    }
  }

  lemma {:induction false} ShownBelowBound(w: seq<Option<ElementInfo>>, n: nat)
    ensures ShownBelow(w, n) <= ShownCount(w) <= |w|
    decreases |w|
  {
    if |w| > 0 {
      ShownBelowBound(w[1..], n);
    }
  }

  lemma {:induction false} ShownBelowAll(w: seq<Option<ElementInfo>>, n: nat)
    requires forall k :: 0 <= k < |w| && Shown(w[k]) ==> 0 <= w[k].value.textureId < n
    ensures ShownBelow(w, n) == ShownCount(w)
    decreases |w|
  {
    if |w| > 0 {
      forall k | 0 <= k < |w[1..]| && Shown(w[1..][k])
        ensures 0 <= w[1..][k].value.textureId < n
      {
        assert w[1..][k] == w[k + 1];
      }
      ShownBelowAll(w[1..], n);
    }
  }

  lemma {:induction false} UsersBelowAtLeast(w: seq<Option<ElementInfo>>, n: nat)
    requires forall t :: 0 <= t < n ==> Users(w, t) >= 1
    ensures UsersBelow(w, n) >= n
  {
    if n > 0 {
      UsersBelowAtLeast(w, n - 1);
    }
  }

  lemma {:induction false} SumMatchesUsers(counts: seq<int>, w: seq<Option<ElementInfo>>, n: nat)
    requires n <= |counts|
    requires forall t :: 0 <= t < n ==> counts[t] == Users(w, t)
    ensures Sum(counts[..n]) == UsersBelow(w, n)
  {
    if n == 0 {
      assert counts[..0] == [];
    } else {
      SumMatchesUsers(counts, w, n - 1);
      assert counts[..n] == counts[..n - 1] + [counts[n - 1]];
      SumAppend(counts[..n - 1], counts[n - 1]);
    }
  }

  /** Refcount conservation: the slot counts add up to the number of window entries holding a texture. */
  lemma CountsSumToShown(p: Pool)
    requires Inv(p)
    ensures Sum(p.counts) == ShownCount(p.window)
  {
    SumMatchesUsers(p.counts, p.window, SLOTS);
    assert p.counts[..SLOTS] == p.counts;
    UsersBelowIsShownBelow(p.window, SLOTS);
    ShownBelowAll(p.window, SLOTS);
  }

  /**
   * Once the evicted entry has given its slot back, at most four entries
   * hold slots, so one of the five slots is free when changeBitmap searches.
   */
  lemma FreeSlotExists(p: Pool)
    requires Inv(p)
    ensures FirstFree(Evict(p), 0).Some?
    ensures LowestFree(Evict(p), FirstFree(Evict(p), 0).value)
    ensures FirstFree(Evict(p), 0).value <= |p.textures|
  {
    var counts := Evict(p);
    var rest := p.window[1..];
    forall t | 0 <= t < SLOTS
      ensures counts[t] == Users(rest, t)
    {
      assert counts[t] == p.counts[t] - Holds(p.window[0], t);
    }
    if forall t :: 0 <= t < SLOTS ==> counts[t] != 0 {
      UsersBelowAtLeast(rest, SLOTS);
      UsersBelowIsShownBelow(rest, SLOTS);
      ShownBelowBound(rest, SLOTS);
      assert false;
    }
    var i := FirstFree(counts, 0).value;
    if i > 0 {
      assert counts[i - 1] != 0;
      assert p.counts[i - 1] > 0;
    }
  }

  // ---------------------------------------------------------------------
  // Invariant preservation

  /** changeBitmap keeps refcount conservation, and every held slot still holds its entry's image. */
  lemma ChangeBitmapKeepsInv(p: Pool, e: ElementInfo)
    requires Inv(p)
    ensures Inv(ChangeBitmap(p, e).pool)
    ensures Shown(Some(e)) ==> Loaded(ChangeBitmap(p, e).pool, ChangeBitmap(p, e).info)
  {
    var r := ChangeBitmap(p, e);
    var q := r.pool;
    var rest := p.window[1..];
    assert |q.textures| <= |q.converts|;
    forall t | 0 <= t < SLOTS
      ensures q.counts[t] == Users(q.window, t)
    {
      UsersAppend(rest, Some(r.info), t);
    }
    forall t | 0 <= t < SLOTS
      ensures Users(rest, t) == p.counts[t] - Holds(p.window[0], t)
    {
    }
    if e.infoId > -1 && !Reusable(p, e) {
      FreeSlotExists(p);
      var i := r.info.textureId;
      forall k | 0 <= k < |rest| && Shown(rest[k])
        ensures rest[k].value.textureId != i
      {
        UsersPositive(rest, k);
      }
    }
    forall k | 0 <= k < SLOTS && Shown(q.window[k])
      ensures Loaded(q, q.window[k].value)
    {
      if k < SLOTS - 1 {
        assert q.window[k] == rest[k] == p.window[k + 1];
        assert Loaded(p, p.window[k + 1].value);
      }
    }
    assert |q.textures| <= SLOTS;
  }

  // ---------------------------------------------------------------------
  // BitmapTextureConvert after a clear

  /**
   * BitmapTexture and BitmapTextureConvert describe the same slots, and
   * every held slot was converted the way its entry asks.
   */
  predicate Aligned(p: Pool)
  {
    && |p.textures| == |p.converts|
    && forall k :: 0 <= k < |p.window| && Shown(p.window[k]) && 0 <= p.window[k].value.textureId < |p.converts| ==>
         p.converts[p.window[k].value.textureId] == ConvertOf(p.window[k].value)
  }

  /**
   * clearProcessData as written keeps the convert list while emptying the
   * image list. An image loaded after the clear is listed at index 0 with
   * its convert pair appended behind the stale ones, so the reuse test
   * reads a stale pair: element `a` is then given slot 0, which was last
   * loaded with the other convert pair, and no upload is queued for it.
   */
  lemma StaleConvertAfterClear()
    ensures var a := Fresh.(infoId := 7, effect := Effect(1, 1, 0, 0));
            var b := Fresh.(infoId := 7, effect := Effect(2, 2, 0, 0));
            var p2 := ClearProcessData(ChangeAll(Initial(), [a]));
            var r := ChangeAll(p2, [b, a]);
            && r.waiting == [Upload(0, 7, 2, 2)]
            && r.window[SLOTS - 1] == Some(a.(textureId := 0))
            && !Aligned(r)
  {
    var a := Fresh.(infoId := 7, effect := Effect(1, 1, 0, 0));
    var b := Fresh.(infoId := 7, effect := Effect(2, 2, 0, 0));
    var p1 := ChangeAll(Initial(), [a]);
    FirstLoad(a);
    assert p1 == ChangeBitmap(Initial(), a).pool by {
      ChangeBitmapKeepsInv(Initial(), a);
      assert [a][1..] == [];
      assert ChangeAll(ChangeBitmap(Initial(), a).pool, []) == ChangeBitmap(Initial(), a).pool;
    }
    var p2 := ClearProcessData(p1);
    var p3 := ChangeBitmap(p2, b).pool;
    LoadAfterClear(p1, b);
    ChangeBitmapKeepsInv(p2, b);
    StaleReuse(p3, a);
    assert [b, a][1..] == [a] && [a][1..] == [];
    assert ChangeAll(p2, [b, a]) == ChangeAll(p3, [a]) == ChangeBitmap(p3, a).pool;
  }

  lemma StaleReuse(p: Pool, a: ElementInfo)
    requires Inv(p) && p.textures == [7] && p.converts == [Convert(1, 1), Convert(2, 2)]
    requires a.infoId == 7 && ConvertOf(a) == Convert(1, 1)
    ensures var r := ChangeBitmap(p, a);
            && r.info == a.(textureId := 0) && r.pool.window[SLOTS - 1] == Some(r.info)
            && r.pool.waiting == p.waiting && !Aligned(r.pool)
  {
    assert IndexOf(p.textures, 7) == 0;
    assert Reusable(p, a);
  }

  lemma FirstLoad(a: ElementInfo)
    requires a.infoId == 7
    ensures ChangeBitmap(Initial(), a).pool.converts == [ConvertOf(a)]
  {
    var p0 := Initial();
    FreeSlotExists(p0);
    assert Evict(p0) == p0.counts;
    assert LowestFree(Evict(p0), 0);
  }

  lemma LoadAfterClear(p: Pool, b: ElementInfo)
    requires p.converts == [Convert(1, 1)] && b.infoId == 7 && ConvertOf(b) == Convert(2, 2)
    ensures var r := ChangeBitmap(ClearProcessData(p), b);
            && r.pool.textures == [7] && r.pool.converts == [Convert(1, 1), Convert(2, 2)]
            && r.pool.waiting == [Upload(0, 7, 2, 2)]
  {
    var p2 := ClearProcessData(p);
    FreeSlotExists(p2);
    assert Evict(p2) == p2.counts;
    assert LowestFree(Evict(p2), 0);
  }

  /** The evidently intended clear: the convert list is emptied with the image list. */
  function ClearProcessDataIntended(p: Pool): (r: Pool)
    ensures Inv(r) && Aligned(r)
    ensures forall k :: 0 <= k < SLOTS ==> r.window[k].None? && r.counts[k] == 0
    ensures r.textures == [] && r.converts == [] && r.waiting == []
    ensures r.bitmapUpdate == p.bitmapUpdate && r.bitmapInit == p.bitmapInit
  {
    ClearProcessData(p).(converts := [])
  }

  /**
   * With the lists aligned, changeBitmap keeps them aligned: a shared slot
   * always carries the convert pair its new user asks for.
   */
  lemma ChangeBitmapKeepsAligned(p: Pool, e: ElementInfo)
    requires Inv(p) && Aligned(p)
    ensures Aligned(ChangeBitmap(p, e).pool)
  {
    var r := ChangeBitmap(p, e);
    var q := r.pool;
    var rest := p.window[1..];
    ChangeBitmapKeepsInv(p, e);
    if e.infoId > -1 && !Reusable(p, e) {
      FreeSlotExists(p);
      var i := r.info.textureId;
      forall t | 0 <= t < SLOTS
        ensures Users(rest, t) == p.counts[t] - Holds(p.window[0], t)
      {
      }
      forall k | 0 <= k < |rest| && Shown(rest[k])
        ensures rest[k].value.textureId != i
      {
        UsersPositive(rest, k);
      }
    }
    forall k | 0 <= k < SLOTS && Shown(q.window[k])
      ensures q.window[k].value.textureId < |q.converts|
      ensures q.converts[q.window[k].value.textureId] == ConvertOf(q.window[k].value)
    {
      assert Loaded(q, q.window[k].value);
      if k < SLOTS - 1 {
        assert q.window[k] == p.window[k + 1];
        assert Loaded(p, p.window[k + 1].value);
      }
    }
  }

  /** After the intended clear, any run of changeBitmap calls keeps the pool invariant and the alignment. */
  lemma {:induction false} IntendedClearStaysAligned(p: Pool, es: seq<ElementInfo>)
    ensures Inv(ChangeAll(ClearProcessDataIntended(p), es)) && Aligned(ChangeAll(ClearProcessDataIntended(p), es))
  {
    KeepsAlignedAll(ClearProcessDataIntended(p), es);
  }

  /** changeBitmap applied to each element in turn. */
  function ChangeAll(p: Pool, es: seq<ElementInfo>): (r: Pool)
    requires Inv(p)
    ensures Inv(r)
    decreases |es|
  {
    if |es| == 0 then p
    else
      ChangeBitmapKeepsInv(p, es[0]);
      ChangeAll(ChangeBitmap(p, es[0]).pool, es[1..])
  }

  lemma {:induction false} KeepsAlignedAll(p: Pool, es: seq<ElementInfo>)
    requires Inv(p) && Aligned(p)
    ensures Inv(ChangeAll(p, es)) && Aligned(ChangeAll(p, es))
    decreases |es|
  {
    if |es| > 0 {
      ChangeBitmapKeepsInv(p, es[0]);
      ChangeBitmapKeepsAligned(p, es[0]);
      KeepsAlignedAll(ChangeBitmap(p, es[0]).pool, es[1..]);
    }
  }
}

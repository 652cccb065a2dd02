/**
 * MicroMovieOrder.gettimeandorderForEncode: rebuilds a slot list for the
 * encoder from the list shown on screen, looking every slot's item up again
 * in the pool by its CountId.
 */
module MovieOrderEncode {
  import opened Basics
  import opened Elements

  /** The first position from `j` on whose CountId is `id` (the inner search loop, lines 375-409). */
  function FindItem(pool: seq<FileInfo>, id: int, j: nat): (r: Option<nat>)
    requires j <= |pool|
    ensures r.Some? ==> j <= r.value < |pool| && pool[r.value].countId == id
    ensures r.Some? ==> forall t :: j <= t < r.value ==> pool[t].countId != id
    ensures r.None? <==> forall t :: j <= t < |pool| ==> pool[t].countId != id
    decreases |pool| - j
  {
    if j == |pool| then None
    else if pool[j].countId == id then Some(j)
    else FindItem(pool, id, j + 1)
  }

  /** The slot rebuilt from `prev`: a fresh element filled from the item found, if any. */
  function EncodeElement(prev: ElementInfo, pool: seq<FileInfo>): (e: ElementInfo)
    ensures FindItem(pool, prev.infoId, 0).None? ==> e == Fresh
    ensures FindItem(pool, prev.infoId, 0).Some? ==>
              var tmp := pool[FindItem(pool, prev.infoId, 0).value];
              && (tmp.kind == Unset ==> e == Fresh)
              && (tmp.kind != Unset ==> e.kind == tmp.kind && e.infoId == prev.infoId && e.date == tmp.date)
              && (tmp.kind == Video ==> e.videopart == prev.videopart && e.textureId == tmp.textureId)
              && (tmp.kind == Bitmap && prev.kind == Bitmap ==> e.width == tmp.width && e.height == tmp.height)
              && (tmp.kind == Bitmap && prev.kind != Bitmap ==> e.width == 0 && e.height == 0 && e.location == None)
    ensures !e.restored && e.time == 0 && e.effect == Fresh.effect
  {
    match FindItem(pool, prev.infoId, 0)
    case None => Fresh
    case Some(j) =>
      var tmp := pool[j];
      if tmp.kind == Bitmap then
        var e := if prev.kind == Bitmap
                 then Fresh.(height := tmp.height, width := tmp.width, location := if tmp.geo.Some? then tmp.geo else None)
                 else Fresh;
        e.(kind := Bitmap, faceCount := tmp.faceCount, infoId := tmp.countId, date := tmp.date, faceRect := tmp.faceRect)
      else if tmp.kind == Video then
        Fresh.(kind := Video, textureId := tmp.textureId, videopart := prev.videopart, infoId := tmp.countId, date := tmp.date)
      else Fresh
  }

  /** gettimeandorderForEncode. */
  function ForEncode(elements: seq<ElementInfo>, pool: seq<FileInfo>): (r: seq<ElementInfo>)
    ensures |r| == |elements|
    ensures forall i :: 0 <= i < |r| ==> r[i] == EncodeElement(elements[i], pool)
  {
    seq(|elements|, i requires 0 <= i < |elements| => EncodeElement(elements[i], pool))
  }

  /**
   * Against a pool whose CountIds are positions, a slot keeps its InfoId and
   * takes the item's type exactly when the id names a bitmap or a video of
   * the pool; every other slot (a no-item slot's -1 among them) becomes a
   * fresh element.
   */
  lemma {:induction false} ForEncodeKeepsItems(elements: seq<ElementInfo>, pool: seq<FileInfo>, i: nat)
    requires forall k :: 0 <= k < |pool| ==> pool[k].countId == k
    requires i < |elements|
    ensures var prev := elements[i]; var e := ForEncode(elements, pool)[i];
            && (0 <= prev.infoId < |pool| && pool[prev.infoId].kind != Unset ==>
                  e.infoId == prev.infoId && e.kind == pool[prev.infoId].kind)
            && (0 <= prev.infoId < |pool| && pool[prev.infoId].kind == Video ==> e.videopart == prev.videopart)
            && (!(0 <= prev.infoId < |pool|) || pool[prev.infoId].kind == Unset ==> e == Fresh)
  {
    var prev := elements[i];
    var f := FindItem(pool, prev.infoId, 0);
    if 0 <= prev.infoId < |pool| {
      assert pool[prev.infoId].countId == prev.infoId;
      assert f.Some?;
      assert f.value == prev.infoId by {
        assert pool[f.value].countId == f.value;
      }
    } else {
      forall t | 0 <= t < |pool| ensures pool[t].countId != prev.infoId {
        assert pool[t].countId == t;
      }
    }
  }

  /**
   * Rebuilding twice changes nothing but the sizes and location of bitmap
   * slots: the first pass made those slots bitmaps, so the second refreshes
   * their sizes from the pool.
   */
  lemma ForEncodeTwice(elements: seq<ElementInfo>, pool: seq<FileInfo>, i: nat)
    requires forall k :: 0 <= k < |pool| ==> pool[k].countId >= 0
    requires i < |elements|
    ensures var e1 := ForEncode(elements, pool)[i]; var e2 := ForEncode(ForEncode(elements, pool), pool)[i];
            e2.(width := e1.width, height := e1.height, location := e1.location) == e1
  {
    var prev := elements[i];
    var e1 := ForEncode(elements, pool)[i];
    var f := FindItem(pool, prev.infoId, 0);
    if f.Some? && pool[f.value].kind != Unset {
      assert e1.infoId == prev.infoId;
      assert FindItem(pool, e1.infoId, 0) == f;
    } else {
      assert e1 == Fresh;
      assert FindItem(pool, -1, 0).None?;
    }
  }

  lemma ForEncodeTwiceSizes(elements: seq<ElementInfo>, pool: seq<FileInfo>, i: nat)
    requires i < |elements|
    requires ForEncode(elements, pool)[i].kind == Bitmap
    ensures var e1 := ForEncode(elements, pool)[i]; var e2 := ForEncode(ForEncode(elements, pool), pool)[i];
            var f := FindItem(pool, e1.infoId, 0);
            f.Some? && e2.width == pool[f.value].width && e2.height == pool[f.value].height
  {
    var prev := elements[i];
    var f := FindItem(pool, prev.infoId, 0);
    assert f.Some?;
  }
}

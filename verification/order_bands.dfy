/**
 * Placement bands of the non-shuffled order (MicroMovieOrder.gettimeandorder,
 * lines 126-148): how the counted slots are split into start / first half /
 * centre / second half / end, and how the chronological bucket of real files
 * is cut down to the start, centre and end bands.
 */
module OrderBands {
  import opened Basics

  /** The five band counters: mStartCount, mFHalfCount, mCenterCount, mLHalfCount, mEndCount. */
  datatype Bands = Bands(start: int, fhalf: int, center: int, lhalf: int, end: int)
  {
    predicate NonNegative()
    {
      start >= 0 && fhalf >= 0 && center >= 0 && lhalf >= 0 && end >= 0
    }

    function Total(): int
    {
      start + fhalf + center + lhalf + end
    }

    /** The slots reserved for files taken from the chronological bucket. */
    function Sorted(): int
    {
      start + center + end
    }
  }

  /** All bands empty: the shuffled order never uses them. */
  const NoBands := Bands(0, 0, 0, 0, 0)

  /**
   * The split of `run` counted slots. Start, end and centre get a sixth
   * each; the two halves share the rest, the second half taking the odd one.
   */
  function Split(run: nat): (b: Bands)
    ensures b.NonNegative()
    ensures b.Total() == run
    ensures b.start == run / 6 && b.end == run / 6 && b.center == run / 6
    ensures b.fhalf <= b.lhalf <= b.fhalf + 1
    ensures b.Sorted() <= Quot(run, 2)
  {
    var sixth := Quot(run, 6);
    var fhalf := Quot(run - sixth - sixth - sixth, 2);
    Bands(sixth, fhalf, sixth, run - sixth - fhalf - sixth - sixth, sixth)
  }

  /** ArrayList.remove(k). */
  function RemoveAt(b: seq<int>, k: nat): (r: seq<int>)
    requires k < |b|
    ensures |r| == |b| - 1
  {
    b[..k] + b[k + 1..]
  }

  /**
   * The first removal loop: `for (i = 0; i < recount / 2; i++) { remove(s); recount--; }`.
   * The bound is re-read after every decrement. Returns the bucket and what is left of `recount`.
   */
  function TrimFirst(b: seq<int>, s: nat, i: nat, recount: int): (r: (seq<int>, int))
    requires |b| - recount >= s
    ensures r.1 <= recount
    ensures |r.0| - r.1 == |b| - recount
    decreases if recount < 0 then 0 else recount
  {
    if i < Quot(recount, 2) then TrimFirst(RemoveAt(b, s), s, i + 1, recount - 1)
    else (b, recount)
  }

  /** The second removal loop: `n` removals at the fixed index `p`. */
  function RemoveRun(b: seq<int>, p: nat, n: nat): (r: seq<int>)
    requires p + n <= |b|
    ensures r == b[..p] + b[p + n..]
  {
    if n == 0 then b
    else
      var r := RemoveRun(RemoveAt(b, p), p, n - 1);
      assert RemoveAt(b, p)[p + n - 1..] == b[p + n..];
      r
  }

  /** Number of passes of the first removal loop started at `i` with `recount`. */
  function FirstPasses(i: nat, recount: int): nat
    decreases if recount < 0 then 0 else recount
  {
    if i < Quot(recount, 2) then 1 + FirstPasses(i + 1, recount - 1) else 0
  }

  lemma {:induction false} TrimFirstShape(b: seq<int>, s: nat, i: nat, recount: int)
    requires |b| - recount >= s
    requires |b| >= s
    ensures var m := FirstPasses(i, recount);
            && s + m <= |b|
            && TrimFirst(b, s, i, recount) == (b[..s] + b[s + m..], recount - m)
    decreases if recount < 0 then 0 else recount
  {
    if i < Quot(recount, 2) {
      var b' := RemoveAt(b, s);
      TrimFirstShape(b', s, i + 1, recount - 1);
      var m' := FirstPasses(i + 1, recount - 1);
      assert FirstPasses(i, recount) == m' + 1;
      assert TrimFirst(b, s, i, recount) == TrimFirst(b', s, i + 1, recount - 1);
      assert b'[..s] == b[..s];
      assert b'[s + m'..] == b[s + m' + 1..];
    } else {
      assert b[s + 0..] == b[s..];
      assert b[..s] + b[s..] == b;
    }
  }

  /**
   * The first loop runs (recount + 1) / 3 times, not recount / 2 times as its
   * bound suggests, because the bound shrinks while `i` grows.
   */
  lemma {:induction false} FirstPassesClosedForm(i: nat, recount: int)
    ensures FirstPasses(i, recount) == (if recount - 2 - 2 * i < 0 then 0 else (recount - 2 - 2 * i) / 3 + 1)
    decreases if recount < 0 then 0 else recount
  {
    if i < Quot(recount, 2) {
      FirstPassesClosedForm(i + 1, recount - 1);
    }
  }

  lemma FirstLoopRemovesAThird(recount: nat)
    ensures FirstPasses(0, recount) == (recount + 1) / 3
  {
    FirstPassesClosedForm(0, recount);
  }

  /**
   * Lines 139-147: cut the chronological bucket down to the start, centre and
   * end bands. The surplus is removed first just after the start band, then
   * just after the centre band.
   */
  function TrimBucket(b: seq<int>, bands: Bands): (r: seq<int>)
    requires bands.NonNegative()
    ensures |r| <= |b|
    ensures |b| <= bands.Sorted() ==> r == b
  {
    var sortcount := bands.Sorted();
    var recount := |b| - sortcount;
    var (b1, left) := TrimFirst(b, bands.start, 0, recount);
    if left <= 0 then b1 else RemoveRun(b1, bands.start + bands.center, left)
  }

  /**
   * A bucket longer than the three sorted bands ends up exactly as long as
   * them: its first `start` ids, `center` consecutive ids from the middle,
   * and its last `end` ids. A bucket that is not longer is left as it is.
   */
  lemma TrimBucketShape(b: seq<int>, bands: Bands)
    requires bands.NonNegative()
    ensures var r := TrimBucket(b, bands);
            && (|b| <= bands.Sorted() ==> r == b)
            && (|b| > bands.Sorted() ==>
                 var k := (|b| - bands.Sorted() + 1) / 3;
                 && |r| == bands.Sorted()
                 && r == b[..bands.start]
                        + b[bands.start + k .. bands.start + k + bands.center]
                        + b[|b| - bands.end..])
  {
    if |b| > bands.Sorted() {
      TrimBucketSurplus(b, bands);
    }
  }

  lemma TrimBucketSurplus(b: seq<int>, bands: Bands)
    requires bands.NonNegative()
    requires |b| > bands.Sorted()
    ensures var k := (|b| - bands.Sorted() + 1) / 3;
            TrimBucket(b, bands) == b[..bands.start]
                                    + b[bands.start + k .. bands.start + k + bands.center]
                                    + b[|b| - bands.end..]
  {
    var s, c, e := bands.start, bands.center, bands.end;
    var recount := |b| - bands.Sorted();
    TrimFirstShape(b, s, 0, recount);
    FirstLoopRemovesAThird(recount);
    var m := FirstPasses(0, recount);
    var b1 := b[..s] + b[s + m..];
    assert TrimFirst(b, s, 0, recount) == (b1, recount - m);
    var r := RemoveRun(b1, s + c, recount - m);
    assert TrimBucket(b, bands) == r;
    SliceOfJoin(b, s, m, c);
    assert b1[s + c + recount - m..] == b[|b| - e..];
  }

  lemma SliceOfJoin(b: seq<int>, s: nat, m: nat, c: nat)
    requires s + m + c <= |b|
    ensures (b[..s] + b[s + m..])[..s + c] == b[..s] + b[s + m .. s + m + c]
  {
  }

  lemma TrimBucketKeepsStart(b: seq<int>, bands: Bands)
    requires bands.NonNegative()
    ensures |TrimBucket(b, bands)| == if |b| > bands.Sorted() then bands.Sorted() else |b|
    ensures |b| >= bands.start ==> TrimBucket(b, bands)[..bands.start] == b[..bands.start]
    ensures forall x :: x in TrimBucket(b, bands) ==> x in b
  {
    TrimBucketShape(b, bands);
    var r := TrimBucket(b, bands);
    if |b| > bands.Sorted() {
      var k := (|b| - bands.Sorted() + 1) / 3;
      var p1, p2, p3 := b[..bands.start], b[bands.start + k .. bands.start + k + bands.center], b[|b| - bands.end..];
      assert r == p1 + p2 + p3;
      forall x | x in r ensures x in b {
        if x in p1 { } else if x in p2 { } else { assert x in p3; }
      }
    }
  }
}

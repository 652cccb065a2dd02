/**
 * The frame and timestamp plan of EncodeAndMux.testEncodeVideoToMp4
 * (lines 159-240): how many frames each slot of the script gets, and the
 * presentation time of every frame handed to the encoder.
 *
 * Drawing, swapping buffers and draining the encoder between frames are
 * left to their own modules; the pause wait and thread interruption are
 * not modelled.
 */
module EncodeFrames {
  import opened Basics

  /** FRAME_RATE: frames per second of the exported video. */
  const FRAME_RATE := 50
  /** Presentation times are handed to the encoder in nanoseconds. */
  const NANOS_PER_MSEC := 1000000

  /** TOTAL_FRAMES: the frames a movie of `durationMs` milliseconds spans (line 118). */
  function TotalFrames(durationMs: int): (f: int)
    ensures durationMs >= 0 ==> 20 * f <= durationMs < 20 * (f + 1)
  {
    Quot(durationMs * FRAME_RATE, 1000)
  }

  /** computePresentationTimeMsec: the time of frame `j` within its slot, in milliseconds. */
  function PresentationTimeMsec(j: int): (ms: int)
    ensures ms == 20 * j
  {
    Quot(j * 1000, FRAME_RATE)
  }

  /**
   * Lines 182-189: the frames of one slot. The last slot takes what is left
   * of the movie; any other slot takes its own duration in frames, capped by
   * what is left.
   */
  function SlotBudget(time: int, last: bool, totalFrame: int, total: int): (n: int)
    ensures last ==> n == total - totalFrame
    ensures !last ==> n <= total - totalFrame && n <= Quot(time * FRAME_RATE, 1000)
    ensures !last ==> n == total - totalFrame || n == Quot(time * FRAME_RATE, 1000)
    ensures time >= 0 && totalFrame <= total ==> n >= 0
  {
    if last then total - totalFrame
    else
      var n := Quot(time * FRAME_RATE, 1000);
      if totalFrame + n > total then total - totalFrame else n
  }

  /** The frames actually generated for the given budgets: a negative budget generates none. */
  function Shown(budget: seq<int>): (f: nat)
  {
    if |budget| == 0 then 0
    else Shown(budget[..|budget| - 1]) + (if budget[|budget| - 1] > 0 then budget[|budget| - 1] else 0)
  }

  lemma ShownAppend(budget: seq<int>, n: int)
    ensures Shown(budget + [n]) == Shown(budget) + (if n > 0 then n else 0)
  {
    assert (budget + [n])[..|budget|] == budget;
  }

  predicate NonNegative(times: seq<int>, upTo: int)
  {
    forall k :: 0 <= k < upTo && k < |times| ==> times[k] >= 0
  }

  /**
   * Lines 195-234: the frames of one slot, each stamped with the slot's start
   * `timer` plus its own time. The `elapseTime <= interval` guard never
   * stops the loop early.
   */
  method EmitSlot(stamps: seq<int>, timer: int, n: int, interval: int) returns (r: seq<int>)
    requires interval == 20 * n
    ensures |r| == |stamps| + (if n > 0 then n else 0) && r[..|stamps|] == stamps
    ensures forall g :: |stamps| <= g < |r| ==> r[g] == timer + 20000000 * (g - |stamps|)
  {
    r := stamps;
    var j := 0;
    while j < n
      invariant 0 <= j && (n >= 0 ==> j <= n) && (n < 0 ==> j == 0)
      invariant |r| == |stamps| + j && r[..|stamps|] == stamps
      invariant forall g :: |stamps| <= g < |r| ==> r[g] == timer + 20000000 * (g - |stamps|)
    {
      var elapseTime := PresentationTimeMsec(j);
      if elapseTime <= interval {
        r := r + [timer + elapseTime * NANOS_PER_MSEC];
      } else {
        break;
      }
      j := j + 1;
    }
  }

  /**
   * The slot loop with its frame loop. `times` are the slot durations in
   * milliseconds, `total` is TOTAL_FRAMES. Returns each visited slot's frame
   * budget, the presentation time of every frame in nanoseconds, and the
   * final frame count.
   */
  method PlanFrames(times: seq<int>, total: int) returns (budget: seq<int>, stamps: seq<int>, totalFrame: int)
    ensures |budget| <= |times|
    ensures totalFrame == Sum(budget)
    ensures forall i :: 0 <= i < |budget| ==> Sum(budget[..i]) < total
    ensures forall i :: 0 <= i < |budget| ==>
              budget[i] == SlotBudget(times[i], i == |times| - 1, Sum(budget[..i]), total)
    ensures |budget| > 0 ==> totalFrame <= total
    ensures |budget| < |times| ==> totalFrame >= total
    ensures 0 < |budget| == |times| ==> totalFrame == total
    ensures |stamps| == Shown(budget)
    ensures NonNegative(times, |times|) ==>
              |stamps| == totalFrame && forall g :: 0 <= g < |stamps| ==> stamps[g] == 20000000 * g
  {
    budget, stamps, totalFrame := [], [], 0;
    var timer := 0;
    var i := 0;
    while i < |times| && totalFrame < total
      invariant 0 <= i <= |times| && |budget| == i
      invariant totalFrame == Sum(budget)
      invariant timer == 20000000 * totalFrame
      invariant forall k :: 0 <= k < i ==> Sum(budget[..k]) < total
      invariant forall k :: 0 <= k < i ==>
                  budget[k] == SlotBudget(times[k], k == |times| - 1, Sum(budget[..k]), total)
      invariant i > 0 ==> totalFrame <= total
      invariant i == |times| > 0 ==> totalFrame == total
      invariant |stamps| == Shown(budget)
      invariant NonNegative(times, i) ==>
                  |stamps| == totalFrame && forall g :: 0 <= g < |stamps| ==> stamps[g] == 20000000 * g
    {
      var n := SlotBudget(times[i], i == |times| - 1, totalFrame, total);
      var interval := PresentationTimeMsec(n);
      var stamps0 := stamps;
      stamps := EmitSlot(stamps, timer, n, interval);
      assert |stamps| == |stamps0| + (if n > 0 then n else 0);
      ghost var before := budget;
      budget := budget + [n];
      assert budget[..i] == before;
      assert forall k :: 0 <= k < i ==> budget[..k] == before[..k];
      SumAppend(before, n);
      ShownAppend(before, n);
      if NonNegative(times, i + 1) {
        assert NonNegative(times, i);
        forall g | 0 <= g < |stamps| ensures stamps[g] == 20000000 * g {
          if g < |stamps0| {
            assert stamps[g] == stamps[..|stamps0|][g];
          }
        }
      }
      totalFrame := totalFrame + n;
      timer := timer + interval * NANOS_PER_MSEC;
      i := i + 1;
    }
  }
}

/**
 * The per-effect clock of a slideshow element (script/Timer.java).
 *
 * The wall clock is passed in as `now`; the mode flags that the Java class
 * asks its collaborators for (ProcessGL.isEncode, the activity's pause flag,
 * ProcessGL.getVideoWait) are passed in as a `Mode`.
 */
module Timer {

  /** The fields of a Timer object (mElpaseOffset is `offset`). */
  datatype Clock = Clock(
    startTime: int,
    total: int,
    offset: int,
    systemTime: int,
    elapseForEncode: int)

  /** What the timer's collaborators report when it is read. */
  datatype Mode = Mode(encode: bool, paused: bool, videoWait: bool)

  /** A reading returns a value and, since reading may refresh mSystemTime, the clock after it. */
  datatype Reading<T> = Reading(clock: Clock, value: T)

  /** Elapsed time against a given instant: now - start + offset. */
  function Since(c: Clock, instant: int): int
  {
    instant - c.startTime + c.offset
  }

  /** The constructor: stores the total and resets the clock at `now`. */
  function New(total: int, now: int): (c: Clock)
    ensures c.total == total && c.elapseForEncode == 0 && c.systemTime == 0
    ensures Since(c, now) == 0
  {
    ResetTimer(Clock(0, total, 0, 0, 0), now)
  }

  function SetElapseForEncode(c: Clock, elapse: int): (r: Clock)
    ensures r.elapseForEncode == elapse
    ensures forall instant :: Since(r, instant) == Since(c, instant)
  {
    c.(elapseForEncode := elapse)
  }

  /** setElapse: from `now` on, the live clock reads `elapse` plus the time passed since. */
  function SetElapse(c: Clock, elapse: int, now: int): (r: Clock)
    ensures Since(r, now) == elapse
    ensures forall later :: Since(r, later) == elapse + (later - now)
    ensures r.total == c.total && r.elapseForEncode == c.elapseForEncode && r.systemTime == c.systemTime
  {
    c.(startTime := now, offset := elapse)
  }

  /** resetTimer: the live clock reads 0 at `now`. */
  function ResetTimer(c: Clock, now: int): (r: Clock)
    ensures Since(r, now) == 0
    ensures forall later :: Since(r, later) == later - now
    ensures r.total == c.total && r.elapseForEncode == c.elapseForEncode && r.systemTime == c.systemTime
  {
    c.(startTime := now, offset := 0)
  }

  /** getElapse: encode beats paused beats video-wait beats live. */
  function GetElapse(c: Clock, m: Mode, now: int): (r: Reading<int>)
    ensures m.encode ==> r == Reading(c, c.elapseForEncode)
    ensures !m.encode && m.paused ==> r.clock == c.(systemTime := now) && r.value == Since(c, now)
    ensures !m.encode && !m.paused && m.videoWait ==> r == Reading(c, c.total)
    ensures !m.encode && !m.paused && !m.videoWait ==> r.clock == c.(systemTime := now) && r.value == Since(c, now)
    ensures r.clock.startTime == c.startTime && r.clock.offset == c.offset && r.clock.total == c.total
    ensures r.clock.elapseForEncode == c.elapseForEncode
  {
    if m.encode then Reading(c, c.elapseForEncode)
    else if m.paused then
      var c' := c.(systemTime := now);
      Reading(c', Since(c', now))
    else if m.videoWait then Reading(c, c.total)
    else
      var c' := c.(systemTime := now);
      Reading(c', Since(c', now))
  }

  /** SeekBarElapse: while paused, the last stored system time is used and not refreshed. */
  function SeekBarElapse(c: Clock, paused: bool, now: int): (r: Reading<int>)
    ensures paused ==> r == Reading(c, Since(c, c.systemTime))
    ensures !paused ==> r.clock == c.(systemTime := now) && r.value == Since(c, now)
  {
    if paused then Reading(c, Since(c, c.systemTime))
    else
      var c' := c.(systemTime := now);
      Reading(c', Since(c', now))
  }

  /** isAlive: the element is still running while its reading is below the total. */
  function IsAlive(c: Clock, m: Mode, now: int): (r: Reading<bool>)
    ensures r.value <==> GetElapse(c, m, now).value < c.total
    ensures r.clock == GetElapse(c, m, now).clock
    ensures !m.encode && !m.paused && m.videoWait ==> !r.value
  {
    var g := GetElapse(c, m, now);
    Reading(g.clock, g.value < c.total)
  }

  /** One call on a timer, as the renderer and the encoder issue them. */
  datatype Call =
    | SetEncode(elapse: int)
    | Set(elapse: int, now: int)
    | Reset(now: int)
    | Get(mode: Mode, now: int)
    | SeekBar(paused: bool, now: int)
    | Alive(mode: Mode, now: int)

  function Step(c: Clock, call: Call): Clock
  {
    match call
    case SetEncode(e) => SetElapseForEncode(c, e)
    case Set(e, now) => SetElapse(c, e, now)
    case Reset(now) => ResetTimer(c, now)
    case Get(m, now) => GetElapse(c, m, now).clock
    case SeekBar(p, now) => SeekBarElapse(c, p, now).clock
    case Alive(m, now) => IsAlive(c, m, now).clock
  }

  function Run(c: Clock, calls: seq<Call>): Clock
    decreases |calls|
  {
    if |calls| == 0 then c else Run(Step(c, calls[0]), calls[1..])
  }

  predicate SetsEncode(call: Call)
  {
    call.SetEncode?
  }

  /**
   * In encode mode the timer reads exactly the last value the encoder set,
   * whatever clock, pause or video-wait traffic happened in between.
   */
  lemma {:induction false} EncodeReadsLastSet(c: Clock, e: int, calls: seq<Call>, m: Mode, now: int)
    requires m.encode
    requires forall k :: 0 <= k < |calls| ==> !SetsEncode(calls[k])
    ensures GetElapse(Run(SetElapseForEncode(c, e), calls), m, now).value == e
  {
    EncodeValueKept(SetElapseForEncode(c, e), calls);
  }

  lemma {:induction false} EncodeValueKept(c: Clock, calls: seq<Call>)
    requires forall k :: 0 <= k < |calls| ==> !SetsEncode(calls[k])
    ensures Run(c, calls).elapseForEncode == c.elapseForEncode
    decreases |calls|
  {
    if |calls| > 0 {
      assert !SetsEncode(calls[0]);
      EncodeValueKept(Step(c, calls[0]), calls[1..]);
    }
  }

  predicate PausedSeekBar(call: Call)
  {
    call.SeekBar? && call.paused
  }

  /**
   * While paused, any run of seek-bar reads with no getElapse in between
   * leaves the clock as it was, so every one of them returns the same value.
   */
  lemma {:induction false} PausedSeekBarIsFrozen(c: Clock, calls: seq<Call>, now: int)
    requires forall k :: 0 <= k < |calls| ==> PausedSeekBar(calls[k])
    ensures Run(c, calls) == c
    ensures SeekBarElapse(Run(c, calls), true, now).value == SeekBarElapse(c, true, now).value
    decreases |calls|
  {
    if |calls| > 0 {
      assert PausedSeekBar(calls[0]);
      PausedSeekBarIsFrozen(Step(c, calls[0]), calls[1..], now);
    }
  }

  /** A paused getElapse stores the instant it read; a later paused seek-bar read returns the same value. */
  lemma PausedGetThenSeekBar(c: Clock, videoWait: bool, now: int, later: int)
    ensures var g := GetElapse(c, Mode(false, true, videoWait), now);
            SeekBarElapse(g.clock, true, later).value == g.value
  {
  }
}

/**
 * EncodeAndMux.drainEncoder (lines 534-612) as a state machine over the
 * statuses the encoder reports, and releaseEncoder (lines 499-525).
 *
 * The encoder is an abstract stream of events: each event is what one
 * dequeueOutputBuffer call reports, together with the buffer's flags and
 * size. The muxer is the log of calls made on it.
 */
module EncodeDrain {
  import opened Basics

  /** One dequeueOutputBuffer result. */
  datatype Event =
    | TryAgain                    // INFO_TRY_AGAIN_LATER
    | BuffersChanged              // INFO_OUTPUT_BUFFERS_CHANGED
    | FormatChanged               // INFO_OUTPUT_FORMAT_CHANGED
    | OtherStatus                 // any other negative status: ignored
    | Buffer(index: nat, present: bool, codecConfig: bool, endOfStream: bool, size: int)

  /** A call made on the muxer, or a buffer handed back to the encoder. */
  datatype Action = AddTrack | StartMuxer | Write(index: nat, size: int) | Release(index: nat)

  /** mMuxerStarted and everything done so far. */
  datatype Mux = Mux(started: bool, log: seq<Action>)

  datatype DrainError =
    | FormatChangedTwice   // "format changed twice"
    | NullBuffer           // "encoderOutputBuffer ... was null"
    | MuxerNotStarted      // "muxer hasn't started"

  /** Why the loop ended without an error. */
  datatype Exit =
    | NoOutput             // try-again while not draining to the end of stream
    | EndOfStream          // a buffer flagged END_OF_STREAM
    | Starved              // the encoder reported nothing more (the Java loop would keep spinning)

  datatype Drained = Drained(mux: Mux, rest: seq<Event>, exit: Exit)

  /** Occurrences of `a` in `log`. */
  function CountOf(log: seq<Action>, a: Action): (n: nat)
    ensures n == 0 <==> a !in log
  {
    if |log| == 0 then 0 else CountOf(log[..|log| - 1], a) + (if log[|log| - 1] == a then 1 else 0)
  }

  lemma CountOfAppend(log: seq<Action>, more: seq<Action>, a: Action)
    ensures CountOf(log + more, a) == CountOf(log, a) + CountOf(more, a)
    decreases |more|
  {
    if |more| == 0 {
      assert log + more == log;
    } else {
      assert (log + more)[..|log + more| - 1] == log + more[..|more| - 1];
      CountOfAppend(log, more[..|more| - 1], a);
    }
  }

  function Releases(log: seq<Action>): (n: nat)
  {
    if |log| == 0 then 0 else Releases(log[..|log| - 1]) + (if log[|log| - 1].Release? then 1 else 0)
  }

  lemma ReleasesAppend(log: seq<Action>, more: seq<Action>)
    ensures Releases(log + more) == Releases(log) + Releases(more)
    decreases |more|
  {
    if |more| == 0 {
      assert log + more == log;
    } else {
      assert (log + more)[..|log + more| - 1] == log + more[..|more| - 1];
      ReleasesAppend(log, more[..|more| - 1]);
    }
  }

  /** Buffers among the events. */
  function Buffers(events: seq<Event>): nat
  {
    if |events| == 0 then 0 else (if events[0].Buffer? then 1 else 0) + Buffers(events[1..])
  }

  /** The writes of a log, in order. */
  function Writes(log: seq<Action>): seq<Action>
  {
    if |log| == 0 then [] else Writes(log[..|log| - 1]) + (if log[|log| - 1].Write? then [log[|log| - 1]] else [])
  }

  lemma WritesAppend(log: seq<Action>, more: seq<Action>)
    ensures Writes(log + more) == Writes(log) + Writes(more)
    decreases |more|
  {
    if |more| == 0 {
      assert log + more == log;
    } else {
      assert (log + more)[..|log + more| - 1] == log + more[..|more| - 1];
      WritesAppend(log, more[..|more| - 1]);
    }
  }

  /** A buffer with content to mux: present, not codec config, and non-empty. */
  predicate IsData(e: Event)
  {
    e.Buffer? && e.present && !e.codecConfig && e.size != 0
  }

  /** The write one event calls for. */
  function WrittenBy(e: Event): seq<Action>
  {
    if IsData(e) then [Write(e.index, e.size)] else []
  }

  /** The writes a run of events calls for, in order. */
  function Written(events: seq<Event>): seq<Action>
  {
    if |events| == 0 then [] else WrittenBy(events[0]) + Written(events[1..])
  }

  /**
   * What a muxer log must look like: the track is added and the muxer
   * started together and at most once, every write is non-empty and comes
   * after the start, and every written buffer is handed back right after.
   */
  predicate Coherent(m: Mux)
  {
    && CountOf(m.log, StartMuxer) == (if m.started then 1 else 0)
    && CountOf(m.log, AddTrack) == CountOf(m.log, StartMuxer)
    && (forall k :: 0 <= k < |m.log| && m.log[k].Write? ==>
          && m.log[k].size != 0
          && StartMuxer in m.log[..k]
          && k + 1 < |m.log| && m.log[k + 1] == Release(m.log[k].index))
  }

  /** The events consumed when `rest` is what is left. */
  function Consumed(events: seq<Event>, rest: seq<Event>): seq<Event>
    requires |rest| <= |events|
  {
    events[..|events| - |rest|]
  }

  /** `log` extended into `log'`. */
  predicate Extends(log: seq<Action>, log': seq<Action>)
  {
    |log| <= |log'| && log'[..|log|] == log
  }

  lemma ExtendsTrans(a: seq<Action>, b: seq<Action>, c: seq<Action>)
    requires Extends(a, b) && Extends(b, c)
    ensures Extends(a, c)
  {
    assert c[..|a|] == c[..|b|][..|a|];
  }

  /** What every successful drain from `m` over `events` guarantees. */
  predicate DrainPost(m: Mux, events: seq<Event>, eos: bool, r: Drained)
  {
    && |r.rest| <= |events| && r.rest == events[|events| - |r.rest|..]
    && MuxPost(m, Consumed(events, r.rest), r.mux)
    && OrderPost(m, Consumed(events, r.rest))
    && StopPost(Consumed(events, r.rest), eos, r)
  }

  /**
   * The muxer after consuming `c`: still coherent, its log extended, one
   * release per consumed buffer, the consumed data buffers written in order,
   * and started exactly when it was or a format change was consumed.
   */
  predicate MuxPost(m: Mux, c: seq<Event>, m': Mux)
  {
    && Coherent(m') && Extends(m.log, m'.log)
    && Releases(m'.log) == Releases(m.log) + Buffers(c)
    && Writes(m'.log) == Writes(m.log) + Written(c)
    && (m'.started <==> m.started || FormatChanged in c)
  }

  /**
   * A format change is consumed only before the start and at most once, a
   * data buffer only after the start or a format change, and no null buffer
   * is consumed.
   */
  predicate OrderPost(m: Mux, c: seq<Event>)
  {
    && (forall k :: 0 <= k < |c| && c[k].Buffer? ==> c[k].present)
    && (forall k :: 0 <= k < |c| && c[k] == FormatChanged ==> !m.started && FormatChanged !in c[..k])
    && (forall k :: 0 <= k < |c| && IsData(c[k]) ==> m.started || FormatChanged in c[..k])
  }

  /** Only the last consumed event may stop the loop, and the exit says which one did. */
  predicate StopPost(c: seq<Event>, eos: bool, r: Drained)
  {
    && (forall k :: 0 <= k < |c| - 1 ==> !Stops(c[k], eos))
    && (r.exit == NoOutput ==> !eos && |c| > 0 && c[|c| - 1] == TryAgain)
    && (r.exit == EndOfStream ==> |c| > 0 && c[|c| - 1].Buffer? && c[|c| - 1].endOfStream)
    && (r.exit == Starved ==> r.rest == [] && (|c| > 0 ==> !Stops(c[|c| - 1], eos)))
  }

  /** The events that end the loop: try-again when not draining to the end, and an end-of-stream buffer. */
  predicate Stops(e: Event, eos: bool)
  {
    (e == TryAgain && !eos) || (e.Buffer? && e.endOfStream)
  }

  /**
   * drainEncoder(endOfStream): the loop of lines 544-611, from a given muxer
   * state. A successful drain keeps the muxer log coherent, hands back every
   * buffer it consumed, writes exactly the consumed data buffers in order,
   * starts the muxer exactly when it consumes a format change (which it does
   * at most once, and only before the start), consumes a data buffer only
   * after the start and no null buffer, and stops on try-again only when not
   * draining to the end of stream. Which streams succeed, and with which
   * error the others fail, is DrainOutcome.
   */
  function Drain(m: Mux, events: seq<Event>, eos: bool): (r: Result<Drained, DrainError>)
    requires Coherent(m)
    ensures r.Ok? ==> DrainPost(m, events, eos, r.value)
    ensures |events| > 0 && events[0] == FormatChanged && m.started ==> r == Err(FormatChangedTwice)
    ensures |events| > 0 && events[0].Buffer? && !events[0].present ==> r == Err(NullBuffer)
    ensures (|events| > 0 && events[0].Buffer? && events[0].present && !events[0].codecConfig
             && events[0].size != 0 && !m.started) ==> r == Err(MuxerNotStarted)
    decreases |events|, 1
  {
    if |events| == 0 then
      assert Consumed(events, []) == [];
      Ok(Drained(m, [], Starved))
    else
      match events[0]
      case TryAgain =>
        IdleStep(m, events[0]);
        if !eos then Finish(m, m, events, eos, NoOutput) else DrainMore(m, m, events, eos)
      case BuffersChanged =>
        IdleStep(m, events[0]);
        DrainMore(m, m, events, eos)
      case OtherStatus =>
        IdleStep(m, events[0]);
        DrainMore(m, m, events, eos)
      case FormatChanged =>
        if m.started then Err(FormatChangedTwice)
        else
          FormatStep(m);
          DrainMore(m, StartMux(m), events, eos)
      case Buffer(index, present, codecConfig, endOfStream, size) =>
        if !present then Err(NullBuffer)
        else
          var size' := if codecConfig then 0 else size;
          if size' != 0 && !m.started then Err(MuxerNotStarted)
          else
            var m' := HandBack(m, index, size');
            BufferStep(m, events[0], size');
            if endOfStream then Finish(m, m', events, eos, EndOfStream) else DrainMore(m, m', events, eos)
  }

  /** What handling one event `e` did to the muxer, turning `m` into `m'`. */
  predicate Stepped(m: Mux, m': Mux, e: Event)
  {
    && Coherent(m') && Extends(m.log, m'.log)
    && Releases(m'.log) == Releases(m.log) + Buffers([e])
    && Writes(m'.log) == Writes(m.log) + WrittenBy(e)
    && (m'.started <==> m.started || e == FormatChanged)
    && (e == FormatChanged ==> !m.started)
    && (IsData(e) ==> m.started)
    && (e.Buffer? ==> e.present)
  }

  /** A status that is not a buffer and not a format change leaves the muxer alone. */
  lemma IdleStep(m: Mux, e: Event)
    requires Coherent(m) && (e == TryAgain || e == BuffersChanged || e == OtherStatus)
    ensures Stepped(m, m, e)
  {
    assert [e][1..] == [];
  }

  /** The first format change adds the track and starts the muxer. */
  lemma FormatStep(m: Mux)
    requires Coherent(m) && !m.started
    ensures Stepped(m, StartMux(m), FormatChanged)
  {
    assert [FormatChanged][1..] == [];
  }

  /** A present buffer is written when it has data, and handed back. */
  lemma BufferStep(m: Mux, e: Event, size': int)
    requires Coherent(m) && e.Buffer? && e.present
    requires size' == if e.codecConfig then 0 else e.size
    requires size' != 0 ==> m.started
    ensures Stepped(m, HandBack(m, e.index, size'), e)
  {
    assert [e][1..] == [];
  }

  /** The loop leaves right after its first event turned `m` into `m'`. */
  function Finish(m: Mux, m': Mux, events: seq<Event>, eos: bool, exit: Exit): (r: Result<Drained, DrainError>)
    requires |events| > 0 && Stepped(m, m', events[0])
    requires exit == NoOutput ==> !eos && events[0] == TryAgain
    requires exit == EndOfStream ==> events[0].Buffer? && events[0].endOfStream
    requires exit != Starved
    ensures r.Ok? && DrainPost(m, events, eos, r.value)
  {
    var c := Consumed(events, events[1..]);
    assert c == [events[0]] && c[..0] == [];
    assert Written(c) == WrittenBy(events[0]) + Written([]);
    Ok(Drained(m', events[1..], exit))
  }

  /** The rest of the loop once the first event turned `m` into `m'`. */
  function DrainMore(m: Mux, m': Mux, events: seq<Event>, eos: bool): (r: Result<Drained, DrainError>)
    requires |events| > 0 && Stepped(m, m', events[0])
    requires !Stops(events[0], eos)
    ensures r.Ok? ==> DrainPost(m, events, eos, r.value)
    decreases |events|, 0
  {
    var r := Drain(m', events[1..], eos);
    if r.Ok? then
      PostCons(m, m', events, eos, r.value);
      r
    else r
  }

  /** A drain of the tail from `m'`, after one step from `m`, is a drain of the whole from `m`. */
  lemma PostCons(m: Mux, m': Mux, events: seq<Event>, eos: bool, d: Drained)
    requires |events| > 0 && Stepped(m, m', events[0]) && !Stops(events[0], eos)
    requires DrainPost(m', events[1..], eos, d)
    ensures DrainPost(m, events, eos, d)
  {
    var e := events[0];
    var c' := Consumed(events[1..], d.rest);
    var c := Consumed(events, d.rest);
    assert c == [e] + c';
    MuxPostCons(m, m', e, c', c, d.mux);
    PostConsOrder(m, m', e, c', c);
    StopPostCons(e, c', c, eos, d);
  }

  lemma MuxPostCons(m: Mux, m': Mux, e: Event, c': seq<Event>, c: seq<Event>, m'': Mux)
    requires Stepped(m, m', e) && c == [e] + c' && MuxPost(m', c', m'')
    ensures MuxPost(m, c, m'')
  {
    ExtendsTrans(m.log, m'.log, m''.log);
    BuffersConcat(e, c');
    assert c[1..] == c';
    assert Written(c) == WrittenBy(e) + Written(c');
    assert FormatChanged in c <==> e == FormatChanged || FormatChanged in c';
  }

  lemma StopPostCons(e: Event, c': seq<Event>, c: seq<Event>, eos: bool, d: Drained)
    requires !Stops(e, eos) && c == [e] + c' && StopPost(c', eos, d)
    ensures StopPost(c, eos, d)
  {
    assert forall k :: 0 < k < |c| ==> c[k] == c'[k - 1];
  }

  /** The ordering clauses of DrainPost, carried over one step. */
  lemma PostConsOrder(m: Mux, m': Mux, e: Event, c': seq<Event>, c: seq<Event>)
    requires Stepped(m, m', e) && c == [e] + c'
    requires forall k :: 0 <= k < |c'| && c'[k].Buffer? ==> c'[k].present
    requires forall k :: 0 <= k < |c'| && c'[k] == FormatChanged ==> !m'.started && FormatChanged !in c'[..k]
    requires forall k :: 0 <= k < |c'| && IsData(c'[k]) ==> m'.started || FormatChanged in c'[..k]
    ensures forall k :: 0 <= k < |c| && c[k] == FormatChanged ==> !m.started && FormatChanged !in c[..k]
    ensures forall k :: 0 <= k < |c| && IsData(c[k]) ==> m.started || FormatChanged in c[..k]
    ensures forall k :: 0 <= k < |c| && c[k].Buffer? ==> c[k].present
  {
    forall k | 0 < k < |c|
      ensures c[k] == c'[k - 1] && c[..k] == [e] + c'[..k - 1]
    {
    }
    assert c[..0] == [];
  }

  lemma BuffersConcat(e: Event, more: seq<Event>)
    ensures Buffers([e] + more) == Buffers([e]) + Buffers(more)
  {
    assert ([e] + more)[1..] == more;
    assert [e][1..] == [];
  }

  /** Lines 561-569: the track is added and the muxer started. */
  function StartMux(m: Mux): (m': Mux)
    requires Coherent(m) && !m.started
    ensures Coherent(m') && m'.started && Extends(m.log, m'.log)
    ensures m'.log == m.log + [AddTrack, StartMuxer]
    ensures Releases(m'.log) == Releases(m.log)
    ensures Writes(m'.log) == Writes(m.log)
  {
    var more := [AddTrack, StartMuxer];
    var m' := Mux(true, m.log + more);
    CountOfAppend(m.log, more, StartMuxer);
    CountOfAppend(m.log, more, AddTrack);
    ReleasesAppend(m.log, more);
    WritesAppend(m.log, more);
    assert Writes(more) == [];
    assert more[..1] == [AddTrack] && more[..1][..0] == [];
    assert CountOf(more, StartMuxer) == 1 && CountOf(more, AddTrack) == 1 && Releases(more) == 0;
    CoherentExtend(m, m', 2);
    m'
  }

  /** Lines 581-600: an optional write of the buffer, then the buffer handed back. */
  function HandBack(m: Mux, index: nat, size: int): (m': Mux)
    requires Coherent(m)
    requires size != 0 ==> m.started
    ensures Coherent(m') && m'.started == m.started && Extends(m.log, m'.log)
    ensures size != 0 ==> m'.log == m.log + [Write(index, size), Release(index)]
    ensures size == 0 ==> m'.log == m.log + [Release(index)]
    ensures Releases(m'.log) == Releases(m.log) + 1
    ensures Writes(m'.log) == Writes(m.log) + (if size != 0 then [Write(index, size)] else [])
  {
    var more := if size != 0 then [Write(index, size), Release(index)] else [Release(index)];
    var m' := Mux(m.started, m.log + more);
    WritesAppend(m.log, more);
    WritesOfHandBack(more, index, size);
    HandBackCounts(m.log, more, index, size);
    HandBackWrites(m, m', index, size);
    CoherentExtend(m, m', |more|);
    m'
  }

  lemma WritesOfHandBack(more: seq<Action>, index: nat, size: int)
    requires more == if size != 0 then [Write(index, size), Release(index)] else [Release(index)]
    ensures Writes(more) == if size != 0 then [Write(index, size)] else []
  {
    if size != 0 {
      assert more[..1] == [Write(index, size)] && more[..1][..0] == [];
      assert Writes(more[..1]) == [Write(index, size)];
    } else {
      assert more[..0] == [];
      assert Writes(more) == Writes(more[..0]) + [];
    }
  }

  lemma HandBackCounts(log: seq<Action>, more: seq<Action>, index: nat, size: int)
    requires more == if size != 0 then [Write(index, size), Release(index)] else [Release(index)]
    ensures CountOf(log + more, StartMuxer) == CountOf(log, StartMuxer)
    ensures CountOf(log + more, AddTrack) == CountOf(log, AddTrack)
    ensures Releases(log + more) == Releases(log) + 1
  {
    CountOfAppend(log, more, StartMuxer);
    CountOfAppend(log, more, AddTrack);
    ReleasesAppend(log, more);
    if size != 0 {
      assert more[..1] == [Write(index, size)];
      assert more[..1][..0] == [];
      assert Releases(more[..1]) == 0;
    } else {
      assert more[..0] == [];
    }
  }

  lemma HandBackWrites(m: Mux, m': Mux, index: nat, size: int)
    requires Coherent(m) && (size != 0 ==> m.started)
    requires m'.log == m.log + (if size != 0 then [Write(index, size), Release(index)] else [Release(index)])
    ensures forall k :: |m.log| <= k < |m'.log| && m'.log[k].Write? ==>
              && m'.log[k].size != 0 && StartMuxer in m'.log[..k]
              && k + 1 < |m'.log| && m'.log[k + 1] == Release(m'.log[k].index)
  {
    var n := |m.log|;
    if size != 0 {
      assert m'.log[..n] == m.log;
      assert StartMuxer in m.log;
    }
  }

  /**
   * The write clauses of Coherent survive appending actions whose writes are
   * non-empty, follow a start and are followed by their release.
   */
  lemma CoherentExtend(m: Mux, m': Mux, n: nat)
    requires Coherent(m)
    requires |m'.log| == |m.log| + n && m'.log[..|m.log|] == m.log
    requires CountOf(m'.log, StartMuxer) == (if m'.started then 1 else 0)
    requires CountOf(m'.log, AddTrack) == CountOf(m'.log, StartMuxer)
    requires forall k :: |m.log| <= k < |m'.log| && m'.log[k].Write? ==>
               && m'.log[k].size != 0 && StartMuxer in m'.log[..k]
               && k + 1 < |m'.log| && m'.log[k + 1] == Release(m'.log[k].index)
    ensures Coherent(m')
  {
    forall k | 0 <= k < |m.log| && m'.log[k].Write?
      ensures m'.log[k].size != 0 && StartMuxer in m'.log[..k]
      ensures k + 1 < |m'.log| && m'.log[k + 1] == Release(m'.log[k].index)
    {
      assert m'.log[k] == m.log[k];
      assert m'.log[..k] == m.log[..k];
      assert k + 1 < |m.log|;
      assert m'.log[k + 1] == m.log[k + 1];
    }
  }

  /** The error handling `e` raises when the muxer's started flag is `started`, if any. */
  function Offence(started: bool, e: Event): (r: Option<DrainError>)
    ensures r == Some(FormatChangedTwice) <==> e == FormatChanged && started
    ensures r == Some(NullBuffer) <==> e.Buffer? && !e.present
    ensures r == Some(MuxerNotStarted) <==> IsData(e) && !started
  {
    if e == FormatChanged && started then Some(FormatChangedTwice)
    else if e.Buffer? && !e.present then Some(NullBuffer)
    else if IsData(e) && !started then Some(MuxerNotStarted)
    else None
  }

  /** Whether the muxer is started when event k comes up: it was, or an earlier event was a format change. */
  predicate StartedAt(started: bool, events: seq<Event>, k: nat)
    requires k <= |events|
  {
    started || FormatChanged in events[..k]
  }

  /** Event k comes up at all: no earlier event ends the loop. */
  predicate Reached(events: seq<Event>, eos: bool, k: nat)
    requires k <= |events|
  {
    forall j :: 0 <= j < k ==> !Stops(events[j], eos)
  }

  /** No event that comes up raises an error. */
  predicate Clean(started: bool, events: seq<Event>, eos: bool)
  {
    forall k :: 0 <= k < |events| && Reached(events, eos, k) ==> Offence(StartedAt(started, events, k), events[k]).None?
  }

  /** Event k is the first event that comes up and raises an error. */
  predicate FirstFault(started: bool, events: seq<Event>, eos: bool, k: nat)
    requires k < |events|
  {
    && Reached(events, eos, k)
    && Offence(StartedAt(started, events, k), events[k]).Some?
    && (forall j :: 0 <= j < k ==> Offence(StartedAt(started, events, j), events[j]).None?)
  }

  /**
   * The drain succeeds exactly when no event up to the one that ends the loop
   * is a format change after the start, a null buffer or a data buffer
   * before the start; otherwise it fails with the error of the first such
   * event.
   */
  lemma {:induction false} DrainOutcome(m: Mux, events: seq<Event>, eos: bool)
    requires Coherent(m)
    ensures Drain(m, events, eos).Ok? <==> Clean(m.started, events, eos)
    ensures forall k :: 0 <= k < |events| && FirstFault(m.started, events, eos, k) ==>
              Drain(m, events, eos) == Err(Offence(StartedAt(m.started, events, k), events[k]).value)
    decreases |events|
  {
    if |events| == 0 {
    } else if Offence(m.started, events[0]).Some? {
      OutcomeAtFault(m, events, eos);
    } else if Stops(events[0], eos) {
      OutcomeAtStop(m, events, eos);
    } else {
      var m' := StepOf(m, events[0]);
      DrainOutcome(m', events[1..], eos);
      OutcomeAfterStep(m, m', events, eos);
    }
  }

  /** A first event that raises an error fails the drain with that error. */
  lemma OutcomeAtFault(m: Mux, events: seq<Event>, eos: bool)
    requires Coherent(m) && |events| > 0 && Offence(m.started, events[0]).Some?
    ensures !Drain(m, events, eos).Ok? && !Clean(m.started, events, eos)
    ensures forall k :: 0 <= k < |events| && FirstFault(m.started, events, eos, k) ==>
              Drain(m, events, eos) == Err(Offence(StartedAt(m.started, events, k), events[k]).value)
  {
    assert events[..0] == [];
    assert StartedAt(m.started, events, 0) == m.started;
    assert Reached(events, eos, 0);
  }

  /** A first event that ends the loop without an error makes the drain succeed. */
  lemma OutcomeAtStop(m: Mux, events: seq<Event>, eos: bool)
    requires Coherent(m) && |events| > 0 && Offence(m.started, events[0]).None? && Stops(events[0], eos)
    ensures Drain(m, events, eos).Ok? && Clean(m.started, events, eos)
    ensures forall k :: 0 <= k < |events| ==> !FirstFault(m.started, events, eos, k)
  {
    assert events[..0] == [];
    assert StartedAt(m.started, events, 0) == m.started;
  }

  /** Past a first event that neither fails nor stops, the drain's outcome is that of the tail. */
  lemma OutcomeAfterStep(m: Mux, m': Mux, events: seq<Event>, eos: bool)
    requires Coherent(m) && |events| > 0 && Offence(m.started, events[0]).None? && !Stops(events[0], eos)
    requires m' == StepOf(m, events[0])
    requires Drain(m', events[1..], eos).Ok? <==> Clean(m'.started, events[1..], eos)
    requires forall k :: 0 <= k < |events[1..]| && FirstFault(m'.started, events[1..], eos, k) ==>
               Drain(m', events[1..], eos) == Err(Offence(StartedAt(m'.started, events[1..], k), events[1..][k]).value)
    ensures Drain(m, events, eos).Ok? <==> Clean(m.started, events, eos)
    ensures forall k :: 0 <= k < |events| && FirstFault(m.started, events, eos, k) ==>
              Drain(m, events, eos) == Err(Offence(StartedAt(m.started, events, k), events[k]).value)
  {
    DrainStep(m, events, eos);
    ShiftFacts(m.started, m'.started, events, eos);
    CleanAfterStep(m.started, m'.started, events, eos);
    forall k | 0 <= k < |events| && FirstFault(m.started, events, eos, k)
      ensures Drain(m, events, eos) == Err(Offence(StartedAt(m.started, events, k), events[k]).value)
    {
      FaultAfterStep(m.started, m'.started, events, eos, k);
      assert events[k] == events[1..][k - 1];
    }
  }

  /** Past a first event that neither fails nor stops, the stream is clean exactly when its tail is. */
  lemma CleanAfterStep(s: bool, s': bool, events: seq<Event>, eos: bool)
    requires |events| > 0 && Offence(s, events[0]).None? && !Stops(events[0], eos)
    requires s' <==> s || events[0] == FormatChanged
    ensures Clean(s, events, eos) <==> Clean(s', events[1..], eos)
  {
    var rest := events[1..];
    ShiftFacts(s, s', events, eos);
    assert events[..0] == [];
    assert StartedAt(s, events, 0) == s;
    if Clean(s', rest, eos) {
      forall k | 0 <= k < |events| && Reached(events, eos, k)
        ensures Offence(StartedAt(s, events, k), events[k]).None?
      {
        if k > 0 {
          assert events[k] == rest[k - 1];
          assert Reached(rest, eos, k - 1);
        }
      }
    } else {
      var k' :| 0 <= k' < |rest| && Reached(rest, eos, k') && Offence(StartedAt(s', rest, k'), rest[k']).Some?;
      assert events[k' + 1] == rest[k'];
      assert Reached(events, eos, k' + 1);
    }
  }

  /** Past a first event that neither fails nor stops, the first fault of the stream is that of its tail, one later. */
  lemma FaultAfterStep(s: bool, s': bool, events: seq<Event>, eos: bool, k: nat)
    requires |events| > 0 && Offence(s, events[0]).None? && !Stops(events[0], eos)
    requires s' <==> s || events[0] == FormatChanged
    requires k < |events| && FirstFault(s, events, eos, k)
    ensures k > 0 && FirstFault(s', events[1..], eos, k - 1)
    ensures StartedAt(s, events, k) == StartedAt(s', events[1..], k - 1)
  {
    var rest := events[1..];
    ShiftFacts(s, s', events, eos);
    assert events[..0] == [];
    assert StartedAt(s, events, 0) == s;
    assert k > 0;
    forall j | 0 <= j < k - 1
      ensures Offence(StartedAt(s', rest, j), rest[j]).None?
    {
      assert events[j + 1] == rest[j];
      assert Offence(StartedAt(s, events, j + 1), events[j + 1]).None?;
    }
    assert events[k] == rest[k - 1];
  }

  /** Past a first event that neither fails nor stops, the drain continues on the tail from StepOf. */
  lemma DrainStep(m: Mux, events: seq<Event>, eos: bool)
    requires Coherent(m) && |events| > 0 && Offence(m.started, events[0]).None? && !Stops(events[0], eos)
    ensures Drain(m, events, eos) == Drain(StepOf(m, events[0]), events[1..], eos)
  {
  }

  /** The muxer after the first event, when it neither raises an error nor ends the loop. */
  function StepOf(m: Mux, e: Event): (m': Mux)
    requires Coherent(m) && Offence(m.started, e).None?
    ensures Coherent(m') && (m'.started <==> m.started || e == FormatChanged)
  {
    match e
    case FormatChanged => StartMux(m)
    case Buffer(index, present, codecConfig, endOfStream, size) => HandBack(m, index, if codecConfig then 0 else size)
    case _ => m
  }

  /** Past a first event that neither raises an error nor ends the loop, event k of `events` is event k-1 of the tail. */
  lemma ShiftFacts(s: bool, s': bool, events: seq<Event>, eos: bool)
    requires |events| > 0 && !Stops(events[0], eos)
    requires s' <==> s || events[0] == FormatChanged
    ensures forall k :: 0 < k <= |events| ==>
              && (StartedAt(s, events, k) <==> StartedAt(s', events[1..], k - 1))
              && (Reached(events, eos, k) <==> Reached(events[1..], eos, k - 1))
  {
    forall k | 0 < k <= |events|
      ensures StartedAt(s, events, k) <==> StartedAt(s', events[1..], k - 1)
      ensures Reached(events, eos, k) <==> Reached(events[1..], eos, k - 1)
    {
      assert events[..k] == [events[0]] + events[1..][..k - 1];
      assert forall j :: 0 < j < k ==> events[j] == events[1..][j - 1];
    }
  }

  /**
   * A codec-config buffer is handed back without being written, whatever
   * size it reports: the next entry of the log is its release.
   */
  lemma CodecConfigNotWritten(m: Mux, index: nat, endOfStream: bool, size: int, rest: seq<Event>, eos: bool)
    requires Coherent(m)
    requires Drain(m, [Buffer(index, true, true, endOfStream, size)] + rest, eos).Ok?
    ensures var r := Drain(m, [Buffer(index, true, true, endOfStream, size)] + rest, eos).value;
            |r.mux.log| > |m.log| && r.mux.log[|m.log|] == Release(index)
  {
    var events := [Buffer(index, true, true, endOfStream, size)] + rest;
    assert events[0] == Buffer(index, true, true, endOfStream, size) && events[1..] == rest;
    var m' := HandBack(m, index, 0);
    assert m'.log[|m.log|] == Release(index);
    if !endOfStream {
      var r := Drain(m', rest, eos);
      assert Drain(m, events, eos) == r;
      assert r.value.mux.log[|m.log|] == r.value.mux.log[..|m'.log|][|m.log|];
    }
  }
}

/**
 * The file handling around an export (EncodeAndMux): choosing a free output
 * name, deciding which callback ends the export and which files remain, the
 * clean-up of the output directory, and the per-theme frame time reported
 * with a finished movie.
 *
 * The file system is the set of names present in the output directory.
 */
module EncodeOutput {

  const MP4 := ".mp4"
  /** Integer.MAX_VALUE: the naming loop tries suffixes 1 .. MAX_INT - 1. */
  const MAX_INT := 0x7fff_ffff

  // ---------------------------------------------------------------- names

  /** One decimal digit, as Integer.toString writes it. */
  function DigitChar(d: int): (c: char)
    requires 0 <= d < 10
    ensures '0' <= c <= '9'
  {
    (d + '0' as int) as char
  }

  /** Integer.toString of a non-negative number. */
  function Decimal(n: nat): (s: string)
    ensures 1 <= |s| && (n < 10 <==> |s| == 1)
    ensures forall k :: 0 <= k < |s| ==> '0' <= s[k] <= '9'
  {
    if n < 10 then [DigitChar(n)] else Decimal(n / 10) + [DigitChar(n % 10)]
  }

  /** Different numbers are written differently. */
  lemma {:induction false} DecimalInjective(a: nat, b: nat)
    requires Decimal(a) == Decimal(b)
    ensures a == b
    decreases a
  {
    if a < 10 {
      assert DigitChar(a) == Decimal(a)[0] == DigitChar(b);
    } else {
      var sa, sb := Decimal(a), Decimal(b);
      assert b >= 10;
      assert sa[..|sa| - 1] == Decimal(a / 10) && sb[..|sb| - 1] == Decimal(b / 10);
      assert DigitChar(a % 10) == sa[|sa| - 1] == sb[|sb| - 1] == DigitChar(b % 10);
      DecimalInjective(a / 10, b / 10);
    }
  }

  /** The name tried with suffix `i`: prefix_i. */
  function Candidate(prefix: string, i: nat): string
  {
    prefix + "_" + Decimal(i)
  }

  lemma CandidateInjective(prefix: string, a: nat, b: nat)
    requires Candidate(prefix, a) + MP4 == Candidate(prefix, b) + MP4
    ensures a == b
  {
    var x, y := Candidate(prefix, a) + MP4, Candidate(prefix, b) + MP4;
    assert |Decimal(a)| == |Decimal(b)|;
    assert Decimal(a) == x[|prefix| + 1 .. |x| - 4];
    assert Decimal(b) == y[|prefix| + 1 .. |y| - 4];
    DecimalInjective(a, b);
  }

  lemma CandidateNotPlain(prefix: string, i: nat)
    ensures Candidate(prefix, i) + MP4 != prefix + MP4
  {
    assert (Candidate(prefix, i) + MP4)[|prefix|] == '_';
    assert (prefix + MP4)[|prefix|] == '.';
  }

  /** The names prefix_k.mp4 for 1 <= k < n. */
  function Taken(prefix: string, n: nat): set<string>
  {
    set k | 1 <= k < n :: Candidate(prefix, k) + MP4
  }

  lemma {:induction false} TakenSize(prefix: string, n: nat)
    requires n >= 1
    ensures |Taken(prefix, n)| == n - 1
    ensures prefix + MP4 !in Taken(prefix, n)
  {
    if n == 1 {
      assert Taken(prefix, n) == {};
    } else {
      TakenSize(prefix, n - 1);
      var name := Candidate(prefix, n - 1) + MP4;
      assert Taken(prefix, n) == Taken(prefix, n - 1) + {name};
      if name in Taken(prefix, n - 1) {
        var k :| 1 <= k < n - 1 && Candidate(prefix, k) + MP4 == name;
        CandidateInjective(prefix, k, n - 1);
      }
      CandidateNotPlain(prefix, n - 1);
    }
  }

  lemma {:induction false} SubsetSize(a: set<string>, b: set<string>)
    requires a <= b
    ensures |a| <= |b|
    decreases |a|
  {
    if a != {} {
      var x :| x in a;
      SubsetSize(a - {x}, b - {x});
    }
  }

  /**
   * getOutputPath: `prefix` when prefix.mp4 is free, otherwise prefix_i for
   * the smallest i whose .mp4 is free. While the directory holds fewer than
   * MAX_INT names the chosen .mp4 is always free.
   */
  method GetOutputPath(prefix: string, existing: set<string>) returns (path: string)
    ensures prefix + MP4 !in existing ==> path == prefix
    ensures path != prefix ==>
              exists i :: 1 <= i < MAX_INT && path == Candidate(prefix, i)
                          && forall k :: 1 <= k < i ==> Candidate(prefix, k) + MP4 in existing
    ensures path != prefix ==> path + MP4 !in existing
    ensures |existing| < MAX_INT ==> path + MP4 !in existing
  {
    path := prefix;
    if prefix + MP4 in existing {
      var i := 1;
      while i < MAX_INT
        invariant 1 <= i <= MAX_INT
        invariant forall k :: 1 <= k < i ==> Candidate(prefix, k) + MP4 in existing
        decreases MAX_INT - i
      {
        var name := Candidate(prefix, i);
        if name + MP4 !in existing {
          assert |name| > |prefix|;
          return name;
        }
        i := i + 1;
      }
      TakenSize(prefix, MAX_INT);
      SubsetSize(Taken(prefix, MAX_INT) + {prefix + MP4}, existing);
    }
  }

  // ---------------------------------------------------------------- clean-up

  predicate OccursAt(s: string, sub: string, i: int)
  {
    0 <= i && i + |sub| <= |s| && s[i..i + |sub|] == sub
  }

  /** String.contains. */
  predicate Contains(s: string, sub: string)
  {
    exists i :: 0 <= i <= |s| && OccursAt(s, sub, i)
  }

  /** clearUselessOutputFiles: every name without ".mp4" in it is deleted. */
  function ClearUseless(files: set<string>): (r: set<string>)
    ensures r <= files
    ensures forall f :: f in files && Contains(f, MP4) ==> f in r
    ensures forall f :: f in r ==> Contains(f, MP4)
  {
    set f | f in files && Contains(f, MP4)
  }

  /** A movie file, whose name ends in .mp4, survives the clean-up, and a second clean-up deletes nothing. */
  lemma MoviesSurviveCleanup(files: set<string>, base: string)
    requires base + MP4 in files
    ensures base + MP4 in ClearUseless(files)
    ensures ClearUseless(ClearUseless(files)) == ClearUseless(files)
  {
    var s := base + MP4;
    assert OccursAt(s, MP4, |base|);
  }

  // ---------------------------------------------------------------- the ending

  /** The themes of ThemeAdapter that the exporter knows, and any other value. */
  datatype Theme = Kids | Carnival | Life | Memory | Romance | Sports | Vintage | City | Unknown

  /** getFrameTimeByScript: where the cover frame sits in each theme, in microseconds. */
  function FrameTimeByTheme(t: Theme): (us: int)
    ensures 0 <= us <= 28500000
    ensures us == 0 <==> t in {Kids, Romance, City, Unknown}
  {
    match t
    case Kids => 0
    case Carnival => 17000000
    case Life => 28500000
    case Memory => 4000000
    case Romance => 0
    case Sports => 21200000
    case Vintage => 11000000
    case City => 0
    case Unknown => 0
  }

  /** How the encode phase ended: normally, by InterruptedException, or by any other exception. */
  datatype Failure = Completed | Cancelled | Crashed

  /**
   * What happened in and after the encode phase that decides the ending.
   * `interrupted` and `interruptedLater` are the thread's interrupt flag at
   * the two checks; `cancelledAtWait` is a cancel during the second pause
   * wait; `mergeFails` is an exception from the audio merge.
   */
  datatype RunEnd = RunEnd(failure: Failure, interrupted: bool, mergeFails: bool,
                           cancelledAtWait: bool, interruptedLater: bool)

  datatype Callback = OnException | OnInterrupted | OnSaveDone(uri: string, frameTimeUs: int)

  /** The callback made, the names left in the output directory, and whether the movie went to the gallery. */
  datatype Outcome = Outcome(callback: Callback, files: set<string>, exported: bool)

  predicate AbortsEncode(e: RunEnd)
  {
    e.interrupted || e.failure != Completed
  }

  predicate CancelledAfterMerge(e: RunEnd)
  {
    e.cancelledAtWait || e.interruptedLater
  }

  /**
   * The finally block of testEncodeVideoToMp4 (lines 252-317) as written:
   * the merge block's own finally sets `result` back to true, so a failed
   * merge is reported like a successful one.
   */
  function Conclude(e: RunEnd, dir: string, output: string, video: string, theme: Theme, files: set<string>)
    : (o: Outcome)
    ensures AbortsEncode(e) ==> o.files == files - {output} && !o.exported
    ensures AbortsEncode(e) ==> (o.callback == OnException <==> e.failure == Crashed)
    ensures AbortsEncode(e) && e.failure != Crashed ==> o.callback == OnInterrupted
    ensures !AbortsEncode(e) ==> video !in o.files && o.files <= files && o.files == ClearUseless(o.files)
    ensures !AbortsEncode(e) && CancelledAfterMerge(e) ==> o.callback == OnInterrupted && output !in o.files && !o.exported
    ensures !AbortsEncode(e) && !CancelledAfterMerge(e) ==>
              && o.callback == OnSaveDone("file://" + dir + output, FrameTimeByTheme(theme)) && o.exported
              && (output in files && output != video && Contains(output, MP4) ==> output in o.files)
  {
    if AbortsEncode(e) then
      Outcome(if e.failure == Crashed then OnException else OnInterrupted, files - {output}, false)
    else
      var result := true;
      var left := files - {video};
      if CancelledAfterMerge(e) then Outcome(OnInterrupted, ClearUseless(left - {output}), false)
      else if result then Outcome(OnSaveDone("file://" + dir + output, FrameTimeByTheme(theme)), ClearUseless(left), true)
      else Outcome(OnException, ClearUseless(left), false)
  }

  /** The merge failure cannot be seen: the export is reported saved. */
  lemma MergeFailureReportedAsSaved(e: RunEnd, dir: string, output: string, video: string, theme: Theme, files: set<string>)
    requires !AbortsEncode(e) && !CancelledAfterMerge(e) && e.mergeFails
    ensures Conclude(e, dir, output, video, theme, files).callback.OnSaveDone?
  {
  }

  /** The ending with `result` kept false after a failed merge, so that its onException branch is reachable. */
  function ConcludeIntended(e: RunEnd, dir: string, output: string, video: string, theme: Theme, files: set<string>)
    : (o: Outcome)
    ensures !e.mergeFails ==> o == Conclude(e, dir, output, video, theme, files)
    ensures !AbortsEncode(e) && !CancelledAfterMerge(e) ==>
              (o.callback == OnException <==> e.mergeFails) && (o.exported <==> !e.mergeFails)
  {
    if AbortsEncode(e) then
      Outcome(if e.failure == Crashed then OnException else OnInterrupted, files - {output}, false)
    else
      var result := !e.mergeFails;
      var left := files - {video};
      if CancelledAfterMerge(e) then Outcome(OnInterrupted, ClearUseless(left - {output}), false)
      else if result then Outcome(OnSaveDone("file://" + dir + output, FrameTimeByTheme(theme)), ClearUseless(left), true)
      else Outcome(OnException, ClearUseless(left), false)
  }
}

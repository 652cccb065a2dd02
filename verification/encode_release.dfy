/**
 * EncodeAndMux.releaseEncoder (lines 499-525): hands back the encoder, the
 * input surface, the EGL context and the muxer, each only if it is held.
 * A failing muxer stop (IllegalStateException) is swallowed and leaves the
 * muxer held.
 */
module EncodeRelease {

  /** Which objects are held (non-null), and mMuxerStarted. */
  datatype Handles = Handles(encoder: bool, surface: bool, egl: bool, muxer: bool, muxerStarted: bool)

  /** The calls releaseEncoder makes on the objects it holds. */
  datatype Call = StopEncoder | ReleaseEncoderCall | ReleaseSurface | ReleaseEgl | StopMuxer | ReleaseMuxer

  datatype Released = Released(handles: Handles, calls: seq<Call>)

  /** `stopFails`: the muxer's stop throws IllegalStateException. */
  function ReleaseEncoder(h: Handles, stopFails: bool): (r: Released)
    ensures !r.handles.encoder && !r.handles.surface && !r.handles.egl
    ensures r.handles.muxer <==> h.muxer && h.muxerStarted && stopFails
    ensures r.handles.muxerStarted == h.muxerStarted
    ensures (StopEncoder in r.calls <==> h.encoder) && (ReleaseEncoderCall in r.calls <==> h.encoder)
    ensures (ReleaseSurface in r.calls <==> h.surface) && (ReleaseEgl in r.calls <==> h.egl)
    ensures StopMuxer in r.calls <==> h.muxer && h.muxerStarted
    ensures ReleaseMuxer in r.calls <==> h.muxer && !(h.muxerStarted && stopFails)
  {
    var encoder := if h.encoder then [StopEncoder, ReleaseEncoderCall] else [];
    var surface := if h.surface then [ReleaseSurface] else [];
    var egl := if h.egl then [ReleaseEgl] else [];
    var (muxer, held) :=
      if !h.muxer then ([], false)
      else if h.muxerStarted && stopFails then ([StopMuxer], true)
      else ((if h.muxerStarted then [StopMuxer] else []) + [ReleaseMuxer], false);
    Released(h.(encoder := false, surface := false, egl := false, muxer := held), encoder + surface + egl + muxer)
  }

  /** A release that did not throw leaves nothing held, so a second release makes no call at all. */
  lemma ReleaseIdempotent(h: Handles, stopFails: bool, stopFailsAgain: bool)
    requires !(h.muxer && h.muxerStarted && stopFails)
    ensures var r := ReleaseEncoder(h, stopFails);
            ReleaseEncoder(r.handles, stopFailsAgain) == Released(r.handles, [])
  {
    var r := ReleaseEncoder(h, stopFails);
    assert !r.handles.muxer;
  }

  /**
   * mMuxerStarted is never reset, so after a failing stop the next release
   * stops the muxer again.
   */
  lemma FailedStopIsRetried(h: Handles, stopFailsAgain: bool)
    requires h.muxer && h.muxerStarted
    ensures var r := ReleaseEncoder(h, true);
            r.handles.muxer && StopMuxer in ReleaseEncoder(r.handles, stopFailsAgain).calls
  {
  }
}

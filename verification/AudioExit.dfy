/**
 No thread of the pipeline leaves silently: while the stream runs, a thread that has returned has
 raised the error flag, unless playback met an empty frame, which it takes for the end: one that the
 last start found in the pool, or one of an empty read.
 */
module AudioExit {
  import opened AudioStream
  import opened AudioTheorems
  import opened AudioIntegrity
  import opened AudioStop

  ghost predicate Leaving(b: AudioStream.Playback) {
    b.PExit? || (b.PRelease? && b.last)
  }

  ghost predicate ExitInv(s: Stream) {
    && (s.cap.CExit? ==> !s.running || s.error)
    && (Leaving(s.play) ==> !s.running || s.error || s.since.stale || EmptyRead(s))
    && (s.capXruns > MAX_XRUNS ==> s.error)
    && (s.playXruns > MAX_XRUNS ==> s.error)
  }

  lemma CaptureKeepsExit(cfg: Config, s: Stream, read: ReadResult)
    requires CaptureEnabled(cfg, s, read) && ExitInv(s)
    ensures ExitInv(CaptureStep(cfg, s, read))
  {
    var t := CaptureStep(cfg, s, read);
    assert t.play == s.play && t.playXruns == s.playXruns && t.running == s.running && (s.error ==> t.error) && t.since == s.since;
    if EmptyRead(s) {
      var k :| s.since.ring <= k < |s.captured| && s.captured[k].pcm == [];
      assert t.captured[k].pcm == [];
    }
  }

  lemma CodecKeepsExit(cfg: Config, s: Stream)
    requires CodecEnabled(cfg, s) && ExitInv(s)
    ensures ExitInv(CodecStep(cfg, s))
  {
    var t := CodecStep(cfg, s);
    assert t.play == s.play && t.cap == s.cap && t.running == s.running && t.error == s.error;
    assert t.captured == s.captured && t.capXruns == s.capXruns && t.playXruns == s.playXruns && t.since == s.since;
  }

  lemma PlaybackKeepsExit(cfg: Config, s: Stream, write: WriteResult)
    requires Inv(cfg, s) && PlaybackEnabled(cfg, s, write) && ExitInv(s)
    ensures ExitInv(PlaybackStep(cfg, s, write))
  {
    if s.play.PHold? && s.running && s.mpData[s.mp.cons.f].size == 0 {
      EmptyMeansRead(cfg, s);
    }
    PlaybackMoves(cfg, s, write);
  }

  lemma PlaybackMoves(cfg: Config, s: Stream, write: WriteResult)
    requires PlaybackEnabled(cfg, s, write)
    ensures var t := PlaybackStep(cfg, s, write);
            && t.cap == s.cap && t.running == s.running && t.captured == s.captured && t.capXruns == s.capXruns && t.since == s.since
            && (s.error ==> t.error) && (t.playXruns > MAX_XRUNS ==> t.error || t.playXruns == s.playXruns)
            && (Leaving(t.play) ==> Leaving(s.play) || !s.running || t.error ||
                                    (s.play.PHold? && s.mpData[s.mp.cons.f].size == 0))
  {
  }

  lemma StepKeepsExit(cfg: Config, s: Stream, a: Step)
    requires Inv(cfg, s) && Enabled(cfg, s, a) && ExitInv(s)
    ensures ExitInv(AudioStream.Apply(cfg, s, a))
  {
    match a {
      case Capture(read) => CaptureKeepsExit(cfg, s, read);
      case Codec => CodecKeepsExit(cfg, s);
      case Playback(write) => PlaybackKeepsExit(cfg, s, write);
      case Spurious =>
      case Stop =>
      case Start =>
    }
  }

  lemma {:induction false} RunKeepsExit(cfg: Config, s: Stream, steps: seq<Step>)
    requires Inv(cfg, s) && ExitInv(s) && Possible(cfg, s, steps)
    ensures ExitInv(Exec(cfg, s, steps)) && Inv(cfg, Exec(cfg, s, steps))
    decreases |steps|
  {
    if steps != [] {
      StepInv(cfg, s, steps[0]);
      StepKeepsExit(cfg, s, steps[0]);
      RunKeepsExit(cfg, AudioStream.Apply(cfg, s, steps[0]), steps[1..]);
    }
  }

  /**
   While the stream runs: the codec thread is still there; capture has returned only with the error
   flag up; playback only with the error flag up, after an empty read, or because the last start
   found an empty ready frame. More than ten xruns in a row raise the flag.
   */
  lemma NoSilentExit(cfg: Config, steps: seq<Step>)
    requires cfg.Valid() && Possible(cfg, Init(cfg), steps)
    ensures var t := Exec(cfg, Init(cfg), steps);
            t.running ==>
              && !t.codec.KExit?
              && (t.cap.CExit? ==> t.error)
              && (t.play.PExit? ==> t.error || t.since.stale || EmptyRead(t))
              && (t.capXruns > MAX_XRUNS || t.playXruns > MAX_XRUNS ==> t.error)
  {
    InitInv(cfg);
    RunKeepsExit(cfg, Init(cfg), steps);
  }
}

/**
 Each captured period reaches the playback device at most once, and the frame counters and the
 drop count account for every period.
 */
module AudioOnce {
  import opened AudioStream
  import opened AudioInvariant
  import opened AudioIntegrity
  import M = MpPool

  // ---- At most once ----

  // The first period the codec has not copied yet.
  function Bound(s: Stream): nat {
    if s.codec.KAcquire? || s.codec.KCopy? then Last(s) else s.sp.r
  }

  // Playback is done with the contents of the frame it still holds.
  ghost predicate Spent(s: Stream, i: nat) {
    (s.play.PWrote? || s.play.PRelease?) && s.mp.cons == M.Holding(i)
  }

  // No two full frames carry the same period.
  ghost predicate DistinctOrigins(cfg: Config, s: Stream)
    requires Sized(cfg, s)
  {
    && (forall i :: 0 <= i < |s.origin| && Full(s, i) ==> -1 <= s.origin[i] < Bound(s))
    && (forall i, j :: 0 <= i < j < |s.origin| && Full(s, i) && Full(s, j) && s.origin[i] == s.origin[j] ==> s.origin[i] == -1)
  }

  // No period was given twice, and none of those given is still on its way.
  ghost predicate GivenOnce(cfg: Config, s: Stream)
    requires Sized(cfg, s)
  {
    && (forall j :: 0 <= j < |s.given| ==> 0 <= s.given[j].origin < Bound(s))
    && (forall j, k :: 0 <= j < k < |s.given| ==> s.given[j].origin != s.given[k].origin)
    && (forall i, j :: 0 <= i < |s.origin| && Full(s, i) && !Spent(s, i) && 0 <= j < |s.given| ==>
          s.given[j].origin != s.origin[i])
  }

  ghost predicate GivenExact(s: Stream) {
    forall j :: 0 <= j < |s.given| ==>
      0 <= s.given[j].origin < |s.captured| && s.given[j].pcm == s.captured[s.given[j].origin].pcm
  }

  ghost predicate OnceInv(cfg: Config, s: Stream) {
    Sized(cfg, s) && DistinctOrigins(cfg, s) && GivenOnce(cfg, s) && GivenExact(s)
  }

  lemma InitOnce(cfg: Config)
    requires cfg.Valid()
    ensures OnceInv(cfg, Init(cfg))
  {
  }

  // A step that fills no frame, gives nothing away and does not move the bound back.
  lemma Undisturbed(cfg: Config, s: Stream, t: Stream)
    requires OnceInv(cfg, s) && Sized(cfg, t)
    requires t.origin == s.origin && t.given == s.given && s.captured <= t.captured && Bound(s) <= Bound(t)
    requires forall i :: 0 <= i < |s.origin| && Full(t, i) ==> Full(s, i) && (Spent(s, i) ==> Spent(t, i))
    ensures OnceInv(cfg, t)
  {
  }

  lemma CaptureKeepsOnce(cfg: Config, s: Stream, read: ReadResult)
    requires CaptureEnabled(cfg, s, read) && OnceInv(cfg, s)
    ensures OnceInv(cfg, CaptureStep(cfg, s, read))
  {
    CaptureFrames(cfg, s, read);
    Undisturbed(cfg, s, CaptureStep(cfg, s, read));
  }

  lemma CaptureFrames(cfg: Config, s: Stream, read: ReadResult)
    requires CaptureEnabled(cfg, s, read)
    ensures var t := CaptureStep(cfg, s, read);
            && Sized(cfg, t) && s.captured <= t.captured && Bound(t) == Bound(s)
            && t.mp == s.mp && t.origin == s.origin && t.given == s.given && t.codec == s.codec && t.play == s.play
  {
  }

  // Codec steps that fill no frame only move the bound up.
  lemma CodecKeepsOnce(cfg: Config, s: Stream)
    requires CodecEnabled(cfg, s) && OnceInv(cfg, s) && Links(s) && !s.codec.KCopy? && !s.codec.KZero?
    ensures OnceInv(cfg, CodecStep(cfg, s))
  {
    CodecKeepsFull(cfg, s);
    CodecBound(cfg, s);
    Undisturbed(cfg, s, CodecStep(cfg, s));
  }

  lemma CodecBound(cfg: Config, s: Stream)
    requires CodecEnabled(cfg, s) && Links(s) && !s.codec.KCopy? && !s.codec.KZero?
    ensures var t := CodecStep(cfg, s);
            && Bound(s) <= Bound(t) && t.given == s.given && t.play == s.play
            && forall i: nat :: t.mp.cons == M.Holding(i) <==> s.mp.cons == M.Holding(i)
  {
  }

  lemma CopyKeepsOnce(cfg: Config, s: Stream)
    requires CodecEnabled(cfg, s) && OnceInv(cfg, s) && PoolsInv(cfg, s) && (s.codec.KCopy? || s.codec.KZero?)
    ensures OnceInv(cfg, CodecStep(cfg, s))
  {
    var t, f := CodecStep(cfg, s), s.mp.prods[0].f;
    assert forall i :: 0 <= i < |s.origin| ==> Full(t, i) == (Full(s, i) || i == f) && Spent(t, i) == Spent(s, i);
    assert !Full(s, f);
  }

  lemma PlaybackKeepsOnce(cfg: Config, s: Stream, write: WriteResult)
    requires PlaybackEnabled(cfg, s, write) && OnceInv(cfg, s) && PoolsInv(cfg, s) && !s.play.PHold?
    ensures OnceInv(cfg, PlaybackStep(cfg, s, write))
  {
    var t := PlaybackStep(cfg, s, write);
    PlaybackKeepsFull(cfg, s, write);
    PlaybackSpends(cfg, s, write);
    Undisturbed(cfg, s, t);
  }

  lemma PlaybackSpends(cfg: Config, s: Stream, write: WriteResult)
    requires PlaybackEnabled(cfg, s, write) && PoolsInv(cfg, s) && !s.play.PHold?
    ensures var t := PlaybackStep(cfg, s, write);
            && Sized(cfg, t) && t.given == s.given && t.codec == s.codec
            && forall i :: 0 <= i < |s.origin| && Full(t, i) && Spent(s, i) ==> Spent(t, i)
  {
  }

  // Handing over a frame that is full and not spent yet.
  lemma Handover(cfg: Config, s: Stream, t: Stream, f: nat)
    requires OnceInv(cfg, s) && Sized(cfg, t) && f < cfg.poolFrames
    requires Full(s, f) && !Spent(s, f) && Spent(t, f) && 0 <= s.origin[f] < |s.captured|
    requires t.origin == s.origin && t.captured == s.captured && Bound(t) == Bound(s)
    requires t.given == s.given + [Given(s.origin[f], s.captured[s.origin[f]].pcm)]
    requires forall i :: 0 <= i < |s.origin| ==> Full(t, i) == Full(s, i) && (Spent(s, i) ==> Spent(t, i))
    ensures OnceInv(cfg, t)
  {
    var m := |s.given|;
    forall j | 0 <= j < m ensures t.given[j] == s.given[j] && t.given[j].origin != t.given[m].origin {
    }
  }

  // What is handed to the device was not given before, and its payload is the captured one.
  lemma OutputKeepsOnce(cfg: Config, s: Stream, write: WriteResult)
    requires cfg.Valid() && PlaybackEnabled(cfg, s, write) && s.play.PHold?
    requires OnceInv(cfg, s) && PoolsInv(cfg, s) && DataInv(cfg, s)
    ensures OnceInv(cfg, OutputStep(cfg, s, write))
  {
    var t, f := OutputStep(cfg, s, write), s.mp.cons.f;
    OutputFrames(cfg, s, write);
    if s.mpData[f].size == 0 {
      Undisturbed(cfg, s, t);
    } else {
      OutputExact(cfg, s, f);
      Handover(cfg, s, t, f);
    }
  }

  lemma OutputFrames(cfg: Config, s: Stream, write: WriteResult)
    requires PlaybackEnabled(cfg, s, write) && s.play.PHold? && PoolsInv(cfg, s)
    ensures var t, f := OutputStep(cfg, s, write), s.mp.cons.f;
            && Sized(cfg, t) && t.mp == s.mp && t.sp == s.sp && t.origin == s.origin && t.captured == s.captured
            && t.codec == s.codec && Full(s, f) && !Spent(s, f) && Spent(t, f)
            && forall i :: 0 <= i < |s.origin| ==> Full(t, i) == Full(s, i) && (Spent(s, i) ==> Spent(t, i))
  {
  }

  lemma OutputExact(cfg: Config, s: Stream, f: nat)
    requires cfg.Valid() && DataInv(cfg, s) && f < cfg.poolFrames && Full(s, f) && s.mpData[f].size != 0
    ensures 0 <= s.origin[f] < |s.captured|
    ensures var frame := s.mpData[f];
            Prefix(frame.buf, FramesToBytes(cfg, BytesToFrames(cfg, frame.size))) == s.captured[s.origin[f]].pcm
    ensures BytesToFrames(cfg, s.mpData[f].size) == s.captured[s.origin[f]].n
  {
    FramesRecovered(cfg, s.captured[s.origin[f]].n);
  }

  lemma SpuriousKeepsOnce(cfg: Config, s: Stream)
    requires SpuriousEnabled(cfg, s) && OnceInv(cfg, s)
    ensures OnceInv(cfg, SpuriousStep(cfg, s))
  {
    Undisturbed(cfg, s, SpuriousStep(cfg, s));
  }

  lemma StopKeepsOnce(cfg: Config, s: Stream)
    requires StopEnabled(cfg, s) && OnceInv(cfg, s)
    ensures OnceInv(cfg, StopStep(cfg, s))
  {
    Undisturbed(cfg, s, StopStep(cfg, s));
  }

  lemma StartKeepsOnce(cfg: Config, s: Stream)
    requires StartEnabled(cfg, s) && OnceInv(cfg, s) && s.codec.KExit? && s.play.PExit?
    ensures OnceInv(cfg, StartStep(cfg, s))
  {
    Undisturbed(cfg, s, StartStep(cfg, s));
  }
}

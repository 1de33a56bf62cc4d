/**
 What becomes of the periods that the codec forwards: they are given to the device, still in the
 pool, or an empty one that playback took for the sentinel.
 */
module AudioForward {
  import opened AudioStream
  import opened AudioInvariant
  import opened AudioIntegrity
  import opened AudioOnce
  import opened AudioTheorems
  import M = MpPool

  // Frames on their way to the device: full, with a period, and not handled by playback yet.
  ghost function Undelivered(cfg: Config, s: Stream): set<nat>
    requires Sized(cfg, s)
  {
    set i | 0 <= i < cfg.poolFrames && Full(s, i) && s.origin[i] >= 0 && !Spent(s, i)
  }

  // Copied, but not counted as forwarded yet.
  function Copied(s: Stream): nat {
    if s.codec.KCopied? then 1 else 0
  }

  predicate LeftForGood(b: AudioStream.Playback) {
    b.PExit? || (b.PRelease? && b.last)
  }

  ghost predicate ForwardInv(cfg: Config, s: Stream) {
    && Sized(cfg, s)
    && s.forwarded + Copied(s) == |s.given| + |Undelivered(cfg, s)| + s.mistaken
    && s.mistaken <= s.since.starts && (s.mistaken == s.since.starts ==> LeftForGood(s.play))
  }

  // A step that delivers nothing and fills nothing.
  lemma SameWay(cfg: Config, s: Stream, t: Stream)
    requires ForwardInv(cfg, s) && Sized(cfg, t)
    requires t.forwarded + Copied(t) == s.forwarded + Copied(s) && t.given == s.given && t.mistaken == s.mistaken
    requires t.since.starts == s.since.starts && (s.mistaken == s.since.starts ==> LeftForGood(t.play))
    requires forall i :: 0 <= i < cfg.poolFrames ==>
               (Full(t, i) && t.origin[i] >= 0 && !Spent(t, i) <==> Full(s, i) && s.origin[i] >= 0 && !Spent(s, i))
    ensures ForwardInv(cfg, t)
  {
    assert Undelivered(cfg, t) == Undelivered(cfg, s);
  }

  lemma InitForward(cfg: Config)
    requires cfg.Valid()
    ensures ForwardInv(cfg, Init(cfg))
  {
    assert Undelivered(cfg, Init(cfg)) == {};
  }

  lemma CaptureKeepsForward(cfg: Config, s: Stream, read: ReadResult)
    requires CaptureEnabled(cfg, s, read) && ForwardInv(cfg, s)
    ensures ForwardInv(cfg, CaptureStep(cfg, s, read))
  {
    CaptureKeepsWay(cfg, s, read);
    SameWay(cfg, s, CaptureStep(cfg, s, read));
  }

  lemma CaptureKeepsWay(cfg: Config, s: Stream, read: ReadResult)
    requires CaptureEnabled(cfg, s, read)
    ensures var t := CaptureStep(cfg, s, read);
            && Sized(cfg, t) && t.mp == s.mp && t.origin == s.origin && t.codec == s.codec && t.play == s.play
            && t.forwarded == s.forwarded && t.given == s.given && t.mistaken == s.mistaken && t.since == s.since
  {
  }

  // ---- The codec ----

  // Only frame f changes, from empty to full.
  lemma FrameFilled(cfg: Config, s: Stream, f: nat)
    requires PoolsInv(cfg, s) && CodecEnabled(cfg, s) && (s.codec.KCopy? || s.codec.KZero?) && f == s.mp.prods[0].f
    ensures f < cfg.poolFrames && !Full(s, f) && !Spent(s, f)
    ensures var t := CodecStep(cfg, s);
            && Sized(cfg, t) && t.mp == s.mp && t.play == s.play
            && t.origin == s.origin[f := if s.codec.KCopy? then Last(s) else -1]
            && t.forwarded == s.forwarded && t.given == s.given && t.mistaken == s.mistaken && t.since == s.since
            && Full(t, f) && !Spent(t, f)
            && forall i :: 0 <= i < cfg.poolFrames && i != f ==> Full(t, i) == Full(s, i) && Spent(t, i) == Spent(s, i)
  {
  }

  lemma CopyKeepsForward(cfg: Config, s: Stream)
    requires PoolsInv(cfg, s) && CodecEnabled(cfg, s) && ForwardInv(cfg, s) && s.codec.KCopy?
    ensures ForwardInv(cfg, CodecStep(cfg, s))
  {
    var t, f := CodecStep(cfg, s), s.mp.prods[0].f;
    FrameFilled(cfg, s, f);
    assert Undelivered(cfg, t) == Undelivered(cfg, s) + {f};
  }

  lemma ZeroKeepsForward(cfg: Config, s: Stream)
    requires PoolsInv(cfg, s) && CodecEnabled(cfg, s) && ForwardInv(cfg, s) && s.codec.KZero?
    ensures ForwardInv(cfg, CodecStep(cfg, s))
  {
    FrameFilled(cfg, s, s.mp.prods[0].f);
    SameWay(cfg, s, CodecStep(cfg, s));
  }

  lemma CodecKeepsForward(cfg: Config, s: Stream)
    requires PoolsInv(cfg, s) && CodecEnabled(cfg, s) && ForwardInv(cfg, s)
    ensures ForwardInv(cfg, CodecStep(cfg, s))
  {
    if s.codec.KCopy? {
      CopyKeepsForward(cfg, s);
    } else if s.codec.KZero? {
      ZeroKeepsForward(cfg, s);
    } else {
      if InPool(s.codec) {
        PoolCallKeepsWay(cfg, s);
      } else {
        RingCallKeepsWay(cfg, s);
      }
      SameWay(cfg, s, CodecStep(cfg, s));
    }
  }

  // Full and spent frames are the same before and after.
  ghost predicate SameFrames(cfg: Config, s: Stream, t: Stream)
    requires Sized(cfg, s) && Sized(cfg, t)
  {
    && t.play == s.play && t.origin == s.origin && t.given == s.given && t.mistaken == s.mistaken && t.since == s.since
    && t.forwarded + Copied(t) == s.forwarded + Copied(s)
    && forall i :: 0 <= i < cfg.poolFrames ==> Full(t, i) == Full(s, i) && Spent(t, i) == Spent(s, i)
  }

  lemma PoolCallKeepsWay(cfg: Config, s: Stream)
    requires PoolsInv(cfg, s) && CodecEnabled(cfg, s) && InPool(s.codec)
    ensures Sized(cfg, CodecStep(cfg, s)) && SameFrames(cfg, s, CodecStep(cfg, s))
  {
    if s.codec.KAcquire? || s.codec.KProbe? {
      ClaimKeepsWay(cfg, s);
    } else {
      EnqueueKeepsWay(cfg, s);
    }
  }

  lemma ClaimKeepsWay(cfg: Config, s: Stream)
    requires CodecEnabled(cfg, s) && Links(s) && (s.codec.KAcquire? || s.codec.KProbe?)
    ensures Sized(cfg, CodecStep(cfg, s)) && SameFrames(cfg, s, CodecStep(cfg, s))
  {
  }

  lemma EnqueueKeepsWay(cfg: Config, s: Stream)
    requires PoolsInv(cfg, s) && CodecEnabled(cfg, s) && (s.codec.KSend? || s.codec.KSendLast?)
    ensures Sized(cfg, CodecStep(cfg, s)) && SameFrames(cfg, s, CodecStep(cfg, s))
  {
  }

  // The codec owns a frame that it has filled.
  predicate Filled(k: AudioStream.Codec) {
    k.KCopied? || k.KSend? || k.KSendLast?
  }

  lemma RingCallMoves(cfg: Config, s: Stream)
    requires CodecEnabled(cfg, s) && !InPool(s.codec) && !s.codec.KCopy? && !s.codec.KZero?
    ensures var t := CodecStep(cfg, s);
            && Sized(cfg, t) && t.mp == s.mp && t.play == s.play && t.origin == s.origin
            && t.given == s.given && t.mistaken == s.mistaken && t.since == s.since
            && t.forwarded + Copied(t) == s.forwarded + Copied(s) && Filled(t.codec) == Filled(s.codec)
  {
  }

  lemma RingCallKeepsWay(cfg: Config, s: Stream)
    requires CodecEnabled(cfg, s) && !InPool(s.codec) && !s.codec.KCopy? && !s.codec.KZero?
    ensures Sized(cfg, CodecStep(cfg, s)) && SameFrames(cfg, s, CodecStep(cfg, s))
  {
    RingCallMoves(cfg, s);
    SameFilled(cfg, s, CodecStep(cfg, s));
  }

  lemma SameFilled(cfg: Config, s: Stream, t: Stream)
    requires Sized(cfg, s) && Sized(cfg, t) && t.mp == s.mp && t.play == s.play && Filled(t.codec) == Filled(s.codec)
    ensures forall i :: 0 <= i < cfg.poolFrames ==> Full(t, i) == Full(s, i) && Spent(t, i) == Spent(s, i)
  {
  }

  // ---- Playback ----

  lemma OutputFrame(cfg: Config, s: Stream, write: WriteResult, f: nat)
    requires PoolsInv(cfg, s) && DataInv(cfg, s) && PlaybackEnabled(cfg, s, write) && s.play.PHold? && f == s.mp.cons.f
    ensures f < cfg.poolFrames && Full(s, f) && !Spent(s, f) && (s.origin[f] == -1 ==> s.mpData[f].size == 0)
    ensures var t := PlaybackStep(cfg, s, write);
            && Sized(cfg, t) && t.mp == s.mp && t.codec == s.codec && t.origin == s.origin && t.forwarded == s.forwarded && t.since == s.since
            && |t.given| == |s.given| + (if s.mpData[f].size == 0 then 0 else 1)
            && t.mistaken == s.mistaken + (if s.mpData[f].size == 0 && s.origin[f] >= 0 then 1 else 0)
            && (s.mpData[f].size == 0 ==> LeftForGood(t.play))
            && Spent(t, f)
            && forall i :: 0 <= i < cfg.poolFrames && i != f ==> Full(t, i) == Full(s, i) && Spent(t, i) == Spent(s, i)
  {
  }

  lemma OutputKeepsForward(cfg: Config, s: Stream, write: WriteResult)
    requires PoolsInv(cfg, s) && DataInv(cfg, s) && PlaybackEnabled(cfg, s, write) && ForwardInv(cfg, s) && s.play.PHold?
    requires s.origin[s.mp.cons.f] >= -1
    ensures ForwardInv(cfg, PlaybackStep(cfg, s, write))
  {
    var t, f := PlaybackStep(cfg, s, write), s.mp.cons.f;
    OutputFrame(cfg, s, write, f);
    FrameHandled(cfg, s, t, f);
  }

  // Frame f was on its way if it carries a period, and is handled now.
  lemma FrameHandled(cfg: Config, s: Stream, t: Stream, f: nat)
    requires Sized(cfg, s) && Sized(cfg, t) && f < cfg.poolFrames && t.origin == s.origin
    requires Full(s, f) && !Spent(s, f) && Spent(t, f)
    requires forall i :: 0 <= i < cfg.poolFrames && i != f ==> Full(t, i) == Full(s, i) && Spent(t, i) == Spent(s, i)
    ensures |Undelivered(cfg, s)| == |Undelivered(cfg, t)| + if s.origin[f] >= 0 then 1 else 0
  {
    if s.origin[f] >= 0 {
      assert Undelivered(cfg, s) == Undelivered(cfg, t) + {f};
    } else {
      assert Undelivered(cfg, s) == Undelivered(cfg, t);
    }
  }

  lemma TakeKeepsForward(cfg: Config, s: Stream, write: WriteResult)
    requires PoolsInv(cfg, s) && PlaybackEnabled(cfg, s, write) && ForwardInv(cfg, s) && !s.play.PHold?
    ensures ForwardInv(cfg, PlaybackStep(cfg, s, write))
  {
    if s.play.PTake? {
      TakeKeepsWay(cfg, s, write);
    } else {
      OthersKeepWay(cfg, s, write);
    }
    SameWay(cfg, s, PlaybackStep(cfg, s, write));
  }

  ghost predicate SameUndelivered(cfg: Config, s: Stream, t: Stream)
    requires Sized(cfg, s) && Sized(cfg, t)
  {
    && t.codec == s.codec && t.origin == s.origin && t.given == s.given && t.mistaken == s.mistaken && t.forwarded == s.forwarded
    && t.since == s.since
    && (LeftForGood(s.play) ==> LeftForGood(t.play))
    && forall i :: 0 <= i < cfg.poolFrames ==> (Full(t, i) && !Spent(t, i) <==> Full(s, i) && !Spent(s, i))
  }

  lemma TakeKeepsWay(cfg: Config, s: Stream, write: WriteResult)
    requires PoolsInv(cfg, s) && PlaybackEnabled(cfg, s, write) && s.play.PTake?
    ensures Sized(cfg, PlaybackStep(cfg, s, write)) && SameUndelivered(cfg, s, PlaybackStep(cfg, s, write))
  {
  }

  lemma OthersKeepWay(cfg: Config, s: Stream, write: WriteResult)
    requires PoolsInv(cfg, s) && PlaybackEnabled(cfg, s, write) && !s.play.PTake? && !s.play.PHold?
    ensures Sized(cfg, PlaybackStep(cfg, s, write)) && SameUndelivered(cfg, s, PlaybackStep(cfg, s, write))
  {
  }

  lemma SpuriousKeepsForward(cfg: Config, s: Stream)
    requires SpuriousEnabled(cfg, s) && ForwardInv(cfg, s)
    ensures ForwardInv(cfg, SpuriousStep(cfg, s))
  {
    SameWay(cfg, s, SpuriousStep(cfg, s));
  }

  lemma StopKeepsForward(cfg: Config, s: Stream)
    requires StopEnabled(cfg, s) && ForwardInv(cfg, s)
    ensures ForwardInv(cfg, StopStep(cfg, s))
  {
    SameWay(cfg, s, StopStep(cfg, s));
  }

  lemma StartKeepsForward(cfg: Config, s: Stream)
    requires StartEnabled(cfg, s) && ForwardInv(cfg, s) && s.codec.KExit? && s.play.PExit?
    ensures ForwardInv(cfg, StartStep(cfg, s))
  {
    assert Undelivered(cfg, StartStep(cfg, s)) == Undelivered(cfg, s);
  }

  // ---- Whole runs ----

  lemma StepKeepsForward(cfg: Config, s: Stream, a: Step)
    requires Inv(cfg, s) && ForwardInv(cfg, s) && Enabled(cfg, s, a)
    ensures ForwardInv(cfg, AudioStream.Apply(cfg, s, a))
  {
    match a {
      case Capture(read) => CaptureKeepsForward(cfg, s, read);
      case Codec => CodecKeepsForward(cfg, s);
      case Playback(write) => PlaybackKeepsForward(cfg, s, write);
      case Spurious => SpuriousKeepsForward(cfg, s);
      case Stop => StopKeepsForward(cfg, s);
      case Start => StartKeepsForward(cfg, s);
    }
  }

  lemma PlaybackKeepsForward(cfg: Config, s: Stream, write: WriteResult)
    requires Inv(cfg, s) && ForwardInv(cfg, s) && PlaybackEnabled(cfg, s, write)
    ensures ForwardInv(cfg, PlaybackStep(cfg, s, write))
  {
    if s.play.PHold? {
      assert Full(s, s.mp.cons.f);
      OutputKeepsForward(cfg, s, write);
    } else {
      TakeKeepsForward(cfg, s, write);
    }
  }

  lemma {:induction false} RunKeepsForward(cfg: Config, s: Stream, steps: seq<Step>)
    requires Inv(cfg, s) && ForwardInv(cfg, s) && Possible(cfg, s, steps)
    ensures ForwardInv(cfg, Exec(cfg, s, steps))
    decreases |steps|
  {
    if steps != [] {
      StepInv(cfg, s, steps[0]);
      StepKeepsForward(cfg, s, steps[0]);
      RunKeepsForward(cfg, AudioStream.Apply(cfg, s, steps[0]), steps[1..]);
    }
  }

  /**
   Every period the codec has copied was given to the device, is in a pool frame on its way there,
   or was an empty one that playback took for the sentinel; of these there is one at most for each start.
   */
  lemma ForwardedConserved(cfg: Config, steps: seq<Step>)
    requires cfg.Valid() && Possible(cfg, Init(cfg), steps)
    ensures var t := Exec(cfg, Init(cfg), steps);
            && Sized(cfg, t)
            && t.forwarded + Copied(t) == |t.given| + |Undelivered(cfg, t)| + t.mistaken
            && t.mistaken <= t.since.starts
  {
    InitInv(cfg);
    InitForward(cfg);
    RunKeepsForward(cfg, Init(cfg), steps);
  }
}

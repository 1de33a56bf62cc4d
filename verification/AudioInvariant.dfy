/**
 Which pool operation each thread of the pipeline is in the middle of, and that every step of every
 thread keeps both pools' invariants.
 */
module AudioInvariant {
  import opened AudioStream
  import S = SpRing
  import M = MpPool

  ghost predicate CaptureLink(s: Stream) {
    match s.cap
    case CAcquire => !s.sp.prod.POwns?
    case CRead | CFail(_) | CFilled(_) | CCounted(_) => s.sp.prod.POwns?
    case CTop | CMiss | CDiscard | CExit => s.sp.prod.PIdle?
  }

  // The codec thread holds the frame it dequeued last, between dequeue and release.
  predicate HoldsRing(k: Codec) {
    k.KAcquire? || k.KNoRoom? || k.KDropped? || k.KCopy? || k.KCopied? || k.KDrained?
  }

  ghost predicate CodecLink(s: Stream)
    requires |s.mp.prods| == 1
  {
    && (HoldsRing(s.codec) <==> s.sp.held != {})
    && (!s.codec.KTake? && !s.codec.KDrain? ==> s.sp.cons.CIdle?)
    && var p := s.mp.prods[0];
       match s.codec
       case KAcquire | KProbe(_) => p.Idle? || p.Probing?
       case KCopy | KCopied | KZero => p.Owns?
       case KSend | KSendLast => !p.Idle? && !p.Probing?
       case _ => p.Idle?
  }

  ghost predicate PlaybackLink(s: Stream) {
    match s.play
    case PTake => !s.mp.cons.Holding?
    case PHold | PWrote(_) | PRelease(_) => s.mp.cons.Holding?
    case PTop | PExit => s.mp.cons.Resting?
  }

  ghost predicate Links(s: Stream)
    requires |s.mp.prods| == 1
  {
    CaptureLink(s) && CodecLink(s) && PlaybackLink(s)
  }

  ghost predicate PoolsInv(cfg: Config, s: Stream) {
    && Sized(cfg, s)
    && S.Inv(s.sp) && S.SingleHolder(s.sp)
    && M.Inv(s.mp)
    && Links(s)
  }

  lemma InitPools(cfg: Config)
    requires cfg.Valid()
    ensures PoolsInv(cfg, Init(cfg))
  {
    S.InitInv(cfg.poolFrames, Frame(seq(cfg.PeriodBytes(), i => 0), cfg.PeriodBytes()));
    M.InitInv(cfg.poolFrames, 1);
  }

  // The phases of the thread loops, so that each proof below looks at a few program points only.
  predicate Acquiring(c: AudioStream.Capture) { c.CTop? || c.CAcquire? || c.CMiss? || c.CDiscard? }

  predicate Taking(k: AudioStream.Codec) { k.KTop? || k.KTake? || k.KAcquire? || k.KNoRoom? || k.KDropped? }

  predicate Forwarding(k: AudioStream.Codec) { k.KCopy? || k.KCopied? || k.KSend? }

  predicate Draining(k: AudioStream.Codec) { k.KDrain? || k.KDrained? }

  lemma CaptureLinks(cfg: Config, s: Stream, read: ReadResult)
    requires CaptureEnabled(cfg, s, read) && Links(s)
    ensures Sized(cfg, CaptureStep(cfg, s, read)) && Links(CaptureStep(cfg, s, read))
  {
    if Acquiring(s.cap) {
      CaptureLinksAcquiring(cfg, s, read);
    } else {
      CaptureLinksReading(cfg, s, read);
    }
  }

  lemma CaptureLinksAcquiring(cfg: Config, s: Stream, read: ReadResult)
    requires CaptureEnabled(cfg, s, read) && Links(s) && Acquiring(s.cap)
    ensures Sized(cfg, CaptureStep(cfg, s, read)) && Links(CaptureStep(cfg, s, read))
  {
  }

  lemma CaptureLinksReading(cfg: Config, s: Stream, read: ReadResult)
    requires CaptureEnabled(cfg, s, read) && Links(s) && !Acquiring(s.cap)
    ensures Sized(cfg, CaptureStep(cfg, s, read)) && Links(CaptureStep(cfg, s, read))
  {
  }

  lemma CodecLinks(cfg: Config, s: Stream)
    requires CodecEnabled(cfg, s) && Links(s) && S.SingleHolder(s.sp)
    ensures Sized(cfg, CodecStep(cfg, s)) && Links(CodecStep(cfg, s))
  {
    if Taking(s.codec) {
      CodecLinksTaking(cfg, s);
    } else if Forwarding(s.codec) {
      CodecLinksForwarding(cfg, s);
    } else if Draining(s.codec) {
      CodecLinksDraining(cfg, s);
    } else {
      CodecLinksLast(cfg, s);
    }
  }

  lemma CodecLinksTaking(cfg: Config, s: Stream)
    requires CodecEnabled(cfg, s) && Links(s) && S.SingleHolder(s.sp) && Taking(s.codec)
    ensures Sized(cfg, CodecStep(cfg, s)) && Links(CodecStep(cfg, s))
  {
  }

  lemma CodecLinksForwarding(cfg: Config, s: Stream)
    requires CodecEnabled(cfg, s) && Links(s) && S.SingleHolder(s.sp) && Forwarding(s.codec)
    ensures Sized(cfg, CodecStep(cfg, s)) && Links(CodecStep(cfg, s))
  {
  }

  lemma CodecLinksDraining(cfg: Config, s: Stream)
    requires CodecEnabled(cfg, s) && Links(s) && S.SingleHolder(s.sp) && Draining(s.codec)
    ensures Sized(cfg, CodecStep(cfg, s)) && Links(CodecStep(cfg, s))
  {
  }

  lemma CodecLinksLast(cfg: Config, s: Stream)
    requires CodecEnabled(cfg, s) && Links(s) && !Taking(s.codec) && !Forwarding(s.codec) && !Draining(s.codec)
    ensures Sized(cfg, CodecStep(cfg, s)) && Links(CodecStep(cfg, s))
  {
  }

  lemma PlaybackLinks(cfg: Config, s: Stream, write: WriteResult)
    requires PlaybackEnabled(cfg, s, write) && Links(s)
    ensures Sized(cfg, PlaybackStep(cfg, s, write)) && Links(PlaybackStep(cfg, s, write))
  {
    if s.play.PTake? {
      DequeueLinks(cfg, s, write);
    } else {
      OutputLinks(cfg, s, write);
    }
  }

  lemma DequeueLinks(cfg: Config, s: Stream, write: WriteResult)
    requires PlaybackEnabled(cfg, s, write) && Links(s) && s.play.PTake?
    ensures Sized(cfg, PlaybackStep(cfg, s, write)) && Links(PlaybackStep(cfg, s, write))
  {
  }

  lemma OutputLinks(cfg: Config, s: Stream, write: WriteResult)
    requires PlaybackEnabled(cfg, s, write) && Links(s) && !s.play.PTake?
    ensures Sized(cfg, PlaybackStep(cfg, s, write)) && Links(PlaybackStep(cfg, s, write))
  {
  }

  // What the capture thread does to the ring is one of the ring's own steps.
  lemma CaptureRing(cfg: Config, s: Stream, read: ReadResult) returns (step: S.Step<Frame>)
    requires CaptureEnabled(cfg, s, read) && Links(s)
    ensures var sp := CaptureStep(cfg, s, read).sp;
            sp != s.sp ==> S.Enabled(s.sp, step) && sp == S.Apply(s.sp, step) && !step.TakeBump? && !step.Release?
  {
    step :=
      match s.cap
      case CAcquire => AcquireStep(s.sp)
      case CRead =>
        if read.Got? then S.Fill(CaptureFrame(cfg, s).(buf := Overwrite(CaptureFrame(cfg, s).buf, read.p.pcm))) else S.Abort
      case CFail(_) => S.Abort
      case CFilled(p) => S.Fill(CaptureFrame(cfg, s).(size := FramesToBytes(cfg, p.n)))
      case _ => S.Commit;
  }

  lemma CapturePools(cfg: Config, s: Stream, read: ReadResult)
    requires PoolsInv(cfg, s) && CaptureEnabled(cfg, s, read)
    ensures PoolsInv(cfg, CaptureStep(cfg, s, read))
  {
    CaptureLinks(cfg, s, read);
    var step := CaptureRing(cfg, s, read);
    if CaptureStep(cfg, s, read).sp != s.sp {
      S.StepInv(s.sp, step);
      S.StepSingleHolder(s.sp, step);
    }
  }

  lemma CodecPools(cfg: Config, s: Stream)
    requires PoolsInv(cfg, s) && CodecEnabled(cfg, s)
    ensures PoolsInv(cfg, CodecStep(cfg, s))
  {
    CodecLinks(cfg, s);
    match s.codec {
      case KTake | KDrain =>
        S.StepInv(s.sp, TakeStep(s.sp));
        S.StepSingleHolder(s.sp, TakeStep(s.sp));
      case KDropped | KCopied | KDrained =>
        S.StepInv(s.sp, S.Release(Last(s)));
        S.StepSingleHolder(s.sp, S.Release(Last(s)));
      case KAcquire | KProbe(_) => M.StepInv(s.mp, ClaimStep(s.mp));
      case KSend | KSendLast => M.StepInv(s.mp, EnqueueStep(s.mp));
      case _ =>
    }
  }

  lemma PlaybackPools(cfg: Config, s: Stream, write: WriteResult)
    requires PoolsInv(cfg, s) && PlaybackEnabled(cfg, s, write)
    ensures PoolsInv(cfg, PlaybackStep(cfg, s, write))
  {
    PlaybackLinks(cfg, s, write);
    match s.play {
      case PTake => M.StepInv(s.mp, DequeueStep(s.mp));
      case PRelease(_) => M.StepInv(s.mp, M.Release);
      case _ =>
    }
  }

  lemma SpuriousPools(cfg: Config, s: Stream)
    requires PoolsInv(cfg, s) && SpuriousEnabled(cfg, s)
    ensures PoolsInv(cfg, SpuriousStep(cfg, s))
  {
    M.StepInv(s.mp, M.Spurious);
  }

  // A start finds both pools at rest, whatever they hold.
  lemma StartPools(cfg: Config, s: Stream)
    requires PoolsInv(cfg, s) && StartEnabled(cfg, s) && s.cap.CExit? && s.codec.KExit? && s.play.PExit?
    ensures PoolsInv(cfg, StartStep(cfg, s))
  {
  }

  lemma StopPools(cfg: Config, s: Stream)
    requires PoolsInv(cfg, s) && StopEnabled(cfg, s)
    ensures PoolsInv(cfg, StopStep(cfg, s))
  {
  }
}

/**
 bb_audio_stream_stop returns: once `running` is false, every step except a spurious wakeup uses up
 part of a budget, and as long as a thread has not returned some thread can step.
 */
module AudioJoin {
  import opened AudioStream
  import opened AudioInvariant
  import opened AudioStop
  import S = SpRing
  import M = MpPool

  // ---- The budget ----

  // More steps than one pass through dequeue can take after a wakeup.
  function DequeueSteps(n: nat): nat { n + 12 }

  // The steps of `k` failed probes for the sentinel in a pool of n frames.
  function Retries(n: nat, k: nat): nat {
    if k == 0 then 0 else Retries(n, k - 1) + n + 3
  }

  function CaptureRank(c: AudioStream.Capture, p: S.Producer): nat {
    match c
    case CExit => 0
    case CTop => 1
    case CDiscard => 2
    case CMiss => 3
    case CFail(_) => 2
    case CCounted(_) => 12
    case CFilled(_) => 13
    case CRead => 14
    case CAcquire => if p.PIdle? then 17 else if p.PSawW? then 16 else 15
  }

  function PlaybackRank(n: nat, b: AudioStream.Playback, c: M.Consumer): nat {
    match b
    case PExit => 0
    case PTop => 1
    case PRelease(_) => 2
    case PWrote(_) => 3
    case PHold => 4
    case PTake =>
      (match c
       case MissLeaving => 4
       case Leaving(_) => 5
       case Picked(_) => 6
       case Waiting => 6
       case Scanning(i) => 7 + (if i < n then n - i else 0)
       case Checking => n + 8
       case Waking => n + 9
       case Locking => n + 9
       case _ => n + 10)
  }

  // An enqueue pays for the pass through dequeue that its signal may cause.
  function EnqueueRank(n: nat, p: M.Producer): nat {
    match p
    case Signalled => 1
    case Counted => DequeueSteps(n) + 2
    case Inside => DequeueSteps(n) + 3
    case Bumped => DequeueSteps(n) + 4
    case _ => DequeueSteps(n) + 5
  }

  function ProbeRank(n: nat, p: M.Producer): nat {
    if p.Probing? then 1 + (if p.i < n then n - p.i else 0) else n + 2
  }

  // Five steps drain one frame.
  function Queue(sp: S.Ring<Frame>): nat {
    if sp.r < sp.w then 5 * (sp.w - sp.r) else 0
  }

  function TakeRank(c: S.Consumer): nat {
    match c case CIdle => 4 case CSawW(_) => 3 case CSawR(_) => 2 case CPassed(_) => 1
  }

  // Without the queue, which capture may still lengthen.
  function CodecRank(n: nat, k: AudioStream.Codec, p: M.Producer, c: S.Consumer): nat {
    var last := DequeueSteps(n) + 6;
    var drain := last + 1 + Retries(n, SENTINEL_RETRIES);
    match k
    case KExit => 0
    case KSendLast => EnqueueRank(n, p)
    case KZero => last
    case KProbe(retry) =>
      last + (if retry < SENTINEL_RETRIES then Retries(n, SENTINEL_RETRIES - 1 - retry) else 0) + ProbeRank(n, p)
    case KDrain => drain + TakeRank(c)
    case KDrained => drain + 5
    case KTop => drain + 5
    case KSend => drain + 5 + EnqueueRank(n, p)
    case KDropped => drain + 6
    case KNoRoom => drain + 7
    case KCopied => drain + 5 + last
    case KCopy => drain + 6 + last
    case KAcquire => drain + 7 + last + ProbeRank(n, p)
    case KTake => drain + 10 + last + n + TakeRank(c)
  }

  function StopRank(t: Stopper): nat {
    match t case SDone => 0 case SJoinPlayback => 1 case SJoinCodec => 2 case SJoinCapture => 3 case SRun => 4
  }

  function Rank(cfg: Config, s: Stream): nat
    requires Sized(cfg, s)
  {
    CaptureRank(s.cap, s.sp.prod) + Queue(s.sp)
    + CodecRank(cfg.poolFrames, s.codec, s.mp.prods[0], s.sp.cons)
    + PlaybackRank(cfg.poolFrames, s.play, s.mp.cons) + StopRank(s.stopper)
  }

  // ---- Every step costs ----

  ghost predicate Stopping(s: Stream)
    requires |s.mp.prods| == 1
  {
    Links(s) && !s.running && S.SingleHolder(s.sp) && (s.sp.cons.CPassed? ==> s.sp.r < s.sp.w)
  }

  lemma CaptureCosts(cfg: Config, s: Stream, read: ReadResult)
    requires CaptureEnabled(cfg, s, read) && Stopping(s)
    ensures Sized(cfg, CaptureStep(cfg, s, read)) && Rank(cfg, CaptureStep(cfg, s, read)) < Rank(cfg, s)
  {
    CaptureAside(cfg, s, read);
    CapturePays(cfg, s, read);
  }

  lemma CapturePays(cfg: Config, s: Stream, read: ReadResult)
    requires CaptureEnabled(cfg, s, read) && Stopping(s)
    ensures var t := CaptureStep(cfg, s, read);
            && t.sp.cons == s.sp.cons
            && CaptureRank(t.cap, t.sp.prod) + Queue(t.sp) < CaptureRank(s.cap, s.sp.prod) + Queue(s.sp)
  {
  }

  // The codec's budget pays for its step and for the playback thread it may wake.
  ghost predicate CodecPays(n: nat, s: Stream, t: Stream)
    requires |s.mp.prods| == 1
  {
    && |t.mp.prods| == 1
    && Queue(t.sp) + CodecRank(n, t.codec, t.mp.prods[0], t.sp.cons) + PlaybackRank(n, t.play, t.mp.cons)
       < Queue(s.sp) + CodecRank(n, s.codec, s.mp.prods[0], s.sp.cons) + PlaybackRank(n, s.play, s.mp.cons)
  }

  lemma CodecCosts(cfg: Config, s: Stream)
    requires CodecEnabled(cfg, s) && Stopping(s)
    ensures Sized(cfg, CodecStep(cfg, s)) && Rank(cfg, CodecStep(cfg, s)) < Rank(cfg, s)
  {
    CodecLinks(cfg, s);
    CodecAside(cfg, s);
    CodecPaysAll(cfg, s);
  }

  lemma CodecPaysAll(cfg: Config, s: Stream)
    requires CodecEnabled(cfg, s) && Stopping(s)
    ensures CodecPays(cfg.poolFrames, s, CodecStep(cfg, s))
  {
    if Taking(s.codec) {
      TakingPays(cfg, s);
    } else if Forwarding(s.codec) {
      ForwardingPays(cfg, s);
    } else if Draining(s.codec) {
      DrainingPays(cfg, s);
    } else if s.codec.KProbe? {
      ProbingPays(cfg, s);
    } else {
      SentinelPays(cfg, s);
    }
  }

  lemma CodecAside(cfg: Config, s: Stream)
    requires CodecEnabled(cfg, s)
    ensures var t := CodecStep(cfg, s);
            t.cap == s.cap && t.sp.prod == s.sp.prod && t.stopper == s.stopper
  {
  }

  lemma TakingPays(cfg: Config, s: Stream)
    requires CodecEnabled(cfg, s) && Stopping(s) && Taking(s.codec)
    ensures CodecPays(cfg.poolFrames, s, CodecStep(cfg, s))
  {
  }

  lemma ForwardingPays(cfg: Config, s: Stream)
    requires CodecEnabled(cfg, s) && Stopping(s) && Forwarding(s.codec)
    ensures CodecPays(cfg.poolFrames, s, CodecStep(cfg, s))
  {
  }

  lemma DrainingPays(cfg: Config, s: Stream)
    requires CodecEnabled(cfg, s) && Stopping(s) && Draining(s.codec)
    ensures CodecPays(cfg.poolFrames, s, CodecStep(cfg, s))
  {
  }

  lemma ProbingPays(cfg: Config, s: Stream)
    requires CodecEnabled(cfg, s) && Stopping(s) && s.codec.KProbe?
    ensures CodecPays(cfg.poolFrames, s, CodecStep(cfg, s))
  {
  }

  lemma SentinelPays(cfg: Config, s: Stream)
    requires CodecEnabled(cfg, s) && Stopping(s) && (s.codec.KZero? || s.codec.KSendLast?)
    ensures CodecPays(cfg.poolFrames, s, CodecStep(cfg, s))
  {
  }

  lemma PlaybackCosts(cfg: Config, s: Stream, write: WriteResult)
    requires PlaybackEnabled(cfg, s, write) && Stopping(s)
    ensures Sized(cfg, PlaybackStep(cfg, s, write)) && Rank(cfg, PlaybackStep(cfg, s, write)) < Rank(cfg, s)
  {
    PlaybackAside(cfg, s, write);
    if s.play.PTake? {
      DequeuePays(cfg, s, write);
    } else {
      OutputPays(cfg, s, write);
    }
  }

  lemma DequeuePays(cfg: Config, s: Stream, write: WriteResult)
    requires PlaybackEnabled(cfg, s, write) && Stopping(s) && s.play.PTake?
    ensures var t := PlaybackStep(cfg, s, write);
            t.sp == s.sp && PlaybackRank(cfg.poolFrames, t.play, t.mp.cons) < PlaybackRank(cfg.poolFrames, s.play, s.mp.cons)
  {
  }

  lemma OutputPays(cfg: Config, s: Stream, write: WriteResult)
    requires PlaybackEnabled(cfg, s, write) && Stopping(s) && !s.play.PTake?
    ensures var t := PlaybackStep(cfg, s, write);
            t.sp == s.sp && PlaybackRank(cfg.poolFrames, t.play, t.mp.cons) < PlaybackRank(cfg.poolFrames, s.play, s.mp.cons)
  {
  }

  lemma StopCosts(cfg: Config, s: Stream)
    requires StopEnabled(cfg, s) && Stopping(s)
    ensures Sized(cfg, StopStep(cfg, s)) && Rank(cfg, StopStep(cfg, s)) < Rank(cfg, s)
  {
  }

  lemma SpuriousCosts(cfg: Config, s: Stream)
    requires SpuriousEnabled(cfg, s) && Stopping(s)
    ensures Sized(cfg, SpuriousStep(cfg, s))
    ensures Rank(cfg, SpuriousStep(cfg, s)) < Rank(cfg, s) + DequeueSteps(cfg.poolFrames)
  {
  }

  // ---- Some thread can step ----

  ghost predicate AllReturned(s: Stream) {
    s.cap.CExit? && s.codec.KExit? && s.play.PExit?
  }

  // A step other than a spurious wakeup that the state admits, with some result of its device call.
  function NextStep(s: Stream): Step {
    if !s.cap.CExit? then Capture(ReadError)
    else if s.mp.mutex.ByConsumer? then Playback(WriteError)
    else if !s.codec.KExit? then Codec
    else if !s.play.PExit? then Playback(WriteError)
    else Stop
  }

  /** No deadlock: until all threads have returned and been joined, some thread can take a step. */
  lemma NoDeadlock(cfg: Config, s: Stream)
    requires PoolsInv(cfg, s) && StopInv(cfg, s)
    requires !s.running && !s.stopper.SDone?
    ensures Enabled(cfg, s, NextStep(s))
  {
    if !s.cap.CExit? {
      CaptureRuns(cfg, s);
    } else if s.mp.mutex.ByConsumer? {
      LockedPlaybackRuns(cfg, s);
    } else if !s.codec.KExit? {
      CodecRuns(cfg, s);
    } else if !s.play.PExit? {
      PlaybackRuns(cfg, s);
    }
  }

  lemma CaptureRuns(cfg: Config, s: Stream)
    requires Sized(cfg, s) && CaptureLink(s) && !s.cap.CExit?
    ensures CaptureEnabled(cfg, s, ReadError)
  {
  }

  lemma CodecRuns(cfg: Config, s: Stream)
    requires PoolsInv(cfg, s) && !s.codec.KExit? && !s.mp.mutex.ByConsumer?
    ensures CodecEnabled(cfg, s)
  {
    RingRuns(cfg, s);
    PoolRuns(cfg, s);
  }

  lemma RingRuns(cfg: Config, s: Stream)
    requires Sized(cfg, s) && S.SingleHolder(s.sp) && CodecLink(s)
    ensures S.Enabled(s.sp, TakeStep(s.sp))
    ensures HoldsRing(s.codec) ==> S.Enabled(s.sp, S.Release(Last(s)))
  {
  }

  lemma PoolRuns(cfg: Config, s: Stream)
    requires Sized(cfg, s) && M.Inv(s.mp) && CodecLink(s) && !s.mp.mutex.ByConsumer?
    ensures s.codec.KAcquire? || s.codec.KProbe? ==> M.Enabled(s.mp, ClaimStep(s.mp))
    ensures s.codec.KSend? || s.codec.KSendLast? ==> M.Enabled(s.mp, EnqueueStep(s.mp))
    ensures s.codec.KCopy? || s.codec.KZero? ==> M.Enabled(s.mp, M.Bump(0))
  {
  }

  lemma LockedPlaybackRuns(cfg: Config, s: Stream)
    requires Sized(cfg, s) && M.Inv(s.mp) && PlaybackLink(s) && s.mp.mutex.ByConsumer?
    ensures PlaybackEnabled(cfg, s, WriteError)
  {
  }

  lemma PlaybackRuns(cfg: Config, s: Stream)
    requires PoolsInv(cfg, s) && StopInv(cfg, s) && s.codec.KExit? && !s.play.PExit?
    ensures PlaybackEnabled(cfg, s, WriteError)
  {
    if Wanting(s) {
      NotStranded(cfg, s);
    }
  }
}

/**
 What holds of every run of the audio pipeline, whatever the interleaving and whatever the devices return.
 */
module AudioTheorems {
  import opened AudioStream
  import opened AudioInvariant
  import opened AudioIntegrity
  import opened AudioOnce
  import opened AudioCounts
  import opened AudioStop
  import opened AudioJoin
  import S = SpRing
  import M = MpPool

  ghost predicate Inv(cfg: Config, s: Stream) {
    && cfg.Valid()
    && PoolsInv(cfg, s) && DataInv(cfg, s) && OnceInv(cfg, s) && CountInv(cfg, s)
    && StopInv(cfg, s) && SentinelInv(cfg, s)
  }

  lemma InitInv(cfg: Config)
    requires cfg.Valid()
    ensures Inv(cfg, Init(cfg))
  {
    InitPools(cfg);
    InitData(cfg);
    InitOnce(cfg);
    InitCounts(cfg);
    InitStop(cfg);
  }

  lemma CaptureInv(cfg: Config, s: Stream, read: ReadResult)
    requires Inv(cfg, s) && CaptureEnabled(cfg, s, read)
    ensures Inv(cfg, CaptureStep(cfg, s, read))
  {
    CapturePools(cfg, s, read);
    CaptureKeepsData(cfg, s, read);
    CaptureKeepsOnce(cfg, s, read);
    CaptureKeepsCounts(cfg, s, read);
    CaptureKeepsStop(cfg, s, read);
  }

  lemma CodecInv(cfg: Config, s: Stream)
    requires Inv(cfg, s) && CodecEnabled(cfg, s)
    ensures Inv(cfg, CodecStep(cfg, s))
  {
    CodecPools(cfg, s);
    if s.codec.KCopy? {
      CopyKeepsData(cfg, s);
      CopyKeepsOnce(cfg, s);
    } else if s.codec.KZero? {
      ZeroKeepsData(cfg, s);
      CopyKeepsOnce(cfg, s);
    } else {
      CodecKeepsData(cfg, s);
      CodecKeepsOnce(cfg, s);
    }
    CodecKeepsCounts(cfg, s);
    CodecKeepsStop(cfg, s);
    CodecKeepsSentinel(cfg, s);
  }

  lemma PlaybackInv(cfg: Config, s: Stream, write: WriteResult)
    requires Inv(cfg, s) && PlaybackEnabled(cfg, s, write)
    ensures Inv(cfg, PlaybackStep(cfg, s, write))
  {
    PlaybackPools(cfg, s, write);
    PlaybackKeepsData(cfg, s, write);
    if s.play.PHold? {
      OutputKeepsOnce(cfg, s, write);
      OutputKeepsCounts(cfg, s, write);
    } else {
      PlaybackKeepsOnce(cfg, s, write);
      PlaybackKeepsCounts(cfg, s, write);
    }
    PlaybackKeepsStop(cfg, s, write);
    PlaybackKeepsSentinel(cfg, s, write);
  }

  lemma SpuriousInv(cfg: Config, s: Stream)
    requires Inv(cfg, s) && SpuriousEnabled(cfg, s)
    ensures Inv(cfg, SpuriousStep(cfg, s))
  {
    SpuriousPools(cfg, s);
    SpuriousKeepsData(cfg, s);
    SpuriousKeepsOnce(cfg, s);
    SpuriousKeepsCounts(cfg, s);
    SpuriousKeepsStop(cfg, s);
  }

  lemma StopperInv(cfg: Config, s: Stream)
    requires Inv(cfg, s) && StopEnabled(cfg, s)
    ensures Inv(cfg, StopStep(cfg, s))
  {
    StopPools(cfg, s);
    StopKeepsData(cfg, s);
    StopKeepsOnce(cfg, s);
    StopKeepsCounts(cfg, s);
    StopKeepsStop(cfg, s);
  }

  lemma StarterInv(cfg: Config, s: Stream)
    requires Inv(cfg, s) && StartEnabled(cfg, s)
    ensures Inv(cfg, StartStep(cfg, s))
  {
    StartPools(cfg, s);
    StartKeepsData(cfg, s);
    StartKeepsOnce(cfg, s);
    StartKeepsCounts(cfg, s);
    StartKeepsStop(cfg, s);
  }

  lemma StepInv(cfg: Config, s: Stream, a: Step)
    requires Inv(cfg, s) && Enabled(cfg, s, a)
    ensures Inv(cfg, Apply(cfg, s, a))
  {
    match a {
      case Capture(read) => CaptureInv(cfg, s, read);
      case Codec => CodecInv(cfg, s);
      case Playback(write) => PlaybackInv(cfg, s, write);
      case Spurious => SpuriousInv(cfg, s);
      case Stop => StopperInv(cfg, s);
      case Start => StarterInv(cfg, s);
    }
  }

  lemma {:induction false} RunInv(cfg: Config, s: Stream, steps: seq<Step>)
    requires Inv(cfg, s) && Possible(cfg, s, steps)
    ensures Inv(cfg, Exec(cfg, s, steps))
    decreases |steps|
  {
    if steps != [] {
      StepInv(cfg, s, steps[0]);
      RunInv(cfg, Apply(cfg, s, steps[0]), steps[1..]);
    }
  }

  lemma Reachable(cfg: Config, steps: seq<Step>)
    requires cfg.Valid() && Possible(cfg, Init(cfg), steps)
    ensures Inv(cfg, Exec(cfg, Init(cfg), steps))
  {
    InitInv(cfg);
    RunInv(cfg, Init(cfg), steps);
  }

  // ---- Integrity ----

  /** Every buffer given to the playback device is byte for byte one captured period, and no period is given twice. */
  lemma PassThrough(cfg: Config, steps: seq<Step>)
    requires cfg.Valid() && Possible(cfg, Init(cfg), steps)
    ensures var t := Exec(cfg, Init(cfg), steps);
            && (forall j :: 0 <= j < |t.given| ==>
                  0 <= t.given[j].origin < |t.captured| && t.given[j].pcm == t.captured[t.given[j].origin].pcm)
            && (forall j, k :: 0 <= j < k < |t.given| ==> t.given[j].origin != t.given[k].origin)
  {
    Reachable(cfg, steps);
  }

  /** The copy between the pools never exceeds the destination frame. */
  lemma CopyFits(cfg: Config, steps: seq<Step>)
    requires cfg.Valid() && Possible(cfg, Init(cfg), steps)
    ensures var t := Exec(cfg, Init(cfg), steps);
            t.codec.KCopy? && CodecEnabled(cfg, t) ==>
              |CodecFrame(cfg, t).Payload()| == CodecFrame(cfg, t).size <= |t.mpData[t.mp.prods[0].f].buf|
  {
    Reachable(cfg, steps);
    var t := Exec(cfg, Init(cfg), steps);
    if t.codec.KCopy? && CodecEnabled(cfg, t) {
      S.ExclusiveFrames(t.sp, Last(t));
    }
  }

  // A period without a byte was in the ring at the last start or has been captured since.
  ghost predicate EmptyRead(s: Stream) {
    exists k :: s.since.ring <= k < |s.captured| && s.captured[k].pcm == []
  }

  // An empty frame met while the stream runs was found by the last start, or captured empty.
  lemma EmptyMeansRead(cfg: Config, s: Stream)
    requires Inv(cfg, s) && s.running && s.play.PHold? && s.mpData[s.mp.cons.f].size == 0
    ensures s.since.stale || EmptyRead(s)
  {
    var f := s.mp.cons.f;
    assert Full(s, f);
    if !s.since.stale {
      assert s.captured[s.origin[f]].pcm == [];
    }
  }

  /**
   While the stream runs, an empty frame reaches playback only if the last start found an empty
   ready frame, or the device delivered an empty read.
   */
  lemma SentinelMeansStop(cfg: Config, steps: seq<Step>)
    requires cfg.Valid() && Possible(cfg, Init(cfg), steps)
    ensures var t := Exec(cfg, Init(cfg), steps);
            t.running && t.play.PHold? && t.mp.cons.Holding? && t.mp.cons.f < |t.mpData| && t.mpData[t.mp.cons.f].size == 0 ==>
              t.since.stale || EmptyRead(t)
  {
    Reachable(cfg, steps);
    var t := Exec(cfg, Init(cfg), steps);
    if t.running && t.play.PHold? && t.mpData[t.mp.cons.f].size == 0 {
      EmptyMeansRead(cfg, t);
    }
  }

  // ---- Statistics ----

  /**
   The counters of bb_audio_stream_stats: each is its true total since the last start modulo 2^32.
   Over all starts playback never gets ahead of capture; since a later start it can do so by the frames
   captured and not played before, at most.  Drops add one period per miss and per codec drop
   (`WrappedIsProduct` gives the product form).
   */
  lemma Statistics(cfg: Config, steps: seq<Step>)
    requires cfg.Valid() && Possible(cfg, Init(cfg), steps)
    ensures var t := Exec(cfg, Init(cfg), steps);
            && t.since.pb <= t.pbTotal <= t.capTotal && t.since.pb <= t.since.cap <= t.capTotal
            && t.capFrames == (t.capTotal - t.since.cap) % 0x1_0000_0000 && t.pbFrames == (t.pbTotal - t.since.pb) % 0x1_0000_0000
            && (t.capTotal - t.since.cap < 0x1_0000_0000 && t.pbTotal - t.since.pb < 0x1_0000_0000 ==>
                  t.pbFrames <= t.capFrames + (t.since.cap - t.since.pb))
            && (t.since.starts == 1 ==> t.since.cap == t.since.pb == 0)
            && (t.since.starts == 1 && t.capTotal < 0x1_0000_0000 ==> t.pbFrames <= t.capFrames)
            && t.since.drops <= t.misses + t.codecDrops
            && t.dropFrames == Wrapped(cfg.period, t.misses + t.codecDrops - t.since.drops)
  {
    Counted(cfg, steps);
    InitInv(cfg);
    SinceTotals(cfg, Init(cfg), steps);
    PlayedAtMostCaptured(cfg, Exec(cfg, Init(cfg), steps));
  }

  ghost predicate SinceInv(s: Stream) {
    && s.since.starts > 0 && s.since.pb <= s.since.cap
    && (s.since.starts == 1 ==> s.since.cap == s.since.pb == 0)
  }

  lemma SinceStep(cfg: Config, s: Stream, a: Step)
    requires Inv(cfg, s) && SinceInv(s) && Enabled(cfg, s, a)
    ensures SinceInv(AudioStream.Apply(cfg, s, a))
  {
    if a.Start? {
      PlayedAtMostCaptured(cfg, s);
    } else {
      SinceKept(cfg, s, a);
    }
  }

  lemma SinceKept(cfg: Config, s: Stream, a: Step)
    requires Enabled(cfg, s, a) && !a.Start?
    ensures AudioStream.Apply(cfg, s, a).since == s.since
  {
  }

  lemma {:induction false} SinceTotals(cfg: Config, s: Stream, steps: seq<Step>)
    requires Inv(cfg, s) && SinceInv(s) && Possible(cfg, s, steps)
    ensures SinceInv(Exec(cfg, s, steps))
    decreases |steps|
  {
    if steps != [] {
      SinceStep(cfg, s, steps[0]);
      StepInv(cfg, s, steps[0]);
      SinceTotals(cfg, AudioStream.Apply(cfg, s, steps[0]), steps[1..]);
    }
  }

  lemma Counted(cfg: Config, steps: seq<Step>)
    requires cfg.Valid() && Possible(cfg, Init(cfg), steps)
    ensures CountInv(cfg, Exec(cfg, Init(cfg), steps))
  {
    Reachable(cfg, steps);
  }

  /** Every committed period is in the ring, in the codec's hands, dropped, drained or forwarded. */
  lemma PeriodsConserved(cfg: Config, steps: seq<Step>)
    requires cfg.Valid() && Possible(cfg, Init(cfg), steps)
    ensures var t := Exec(cfg, Init(cfg), steps);
            |t.captured| == (t.sp.w - t.sp.r) + Pending(t) + t.codecDrops + t.drained + t.forwarded
  {
    Reachable(cfg, steps);
  }

  /** Every frame of both pools is free or in exactly one stage's hands. */
  lemma FramesConserved(cfg: Config, steps: seq<Step>)
    requires cfg.Valid() && Possible(cfg, Init(cfg), steps)
    ensures var t := Exec(cfg, Init(cfg), steps);
            && |S.Busy(t.sp)| == (t.sp.w - t.sp.r) + (if HoldsRing(t.codec) then 1 else 0) + (if t.sp.prod.POwns? then 1 else 0)
            && |M.Busy(t.mp)| == |M.Owners(t.mp)| + |M.Ready(t.mp)| + (if t.mp.cons.Leaving? || t.mp.cons.Holding? then 1 else 0)
  {
    Reachable(cfg, steps);
    var t := Exec(cfg, Init(cfg), steps);
    S.FramesConserved(t.sp);
    M.FramesConserved(t.mp);
    assert |t.sp.held| == if HoldsRing(t.codec) then 1 else 0;
  }

  // ---- Back-pressure ----

  /** A capture miss means the ring was full, or one short of full with the codec holding the frame in between. */
  lemma MissMeansFull(cfg: Config, steps: seq<Step>, read: ReadResult)
    requires cfg.Valid() && Possible(cfg, Init(cfg), steps)
    requires var t := Exec(cfg, Init(cfg), steps);
             t.cap.CAcquire? && CaptureEnabled(cfg, t, read) && CaptureStep(cfg, t, read).cap.CMiss?
    ensures var t := Exec(cfg, Init(cfg), steps);
            t.sp.w - t.sp.r + (if HoldsRing(t.codec) && t.sp.prod.PSawR? then 1 else 0) == cfg.poolFrames
  {
    Reachable(cfg, steps);
    var t := Exec(cfg, Init(cfg), steps);
    if t.sp.prod.PSawW? {
      S.WindowRefusal(t.sp);
    } else if t.sp.prod.PSawR? {
      S.CasRefusal(t.sp);
    }
  }

  /** The codec's dequeue fails exactly on a ring that was empty when it began, and playback's never fails. */
  lemma DequeuesSucceed(cfg: Config, steps: seq<Step>)
    requires cfg.Valid() && Possible(cfg, Init(cfg), steps)
    ensures var t := Exec(cfg, Init(cfg), steps);
            && Sized(cfg, t)
            && (t.sp.cons.CSawW? ==> (S.Apply(t.sp, S.TakeLoadR).cons.CIdle? <==> t.sp.r == t.sp.cons.w))
            && (t.sp.cons.CSawR? ==> S.Apply(t.sp, S.TakeCheck).cons.CPassed?)
            && !t.mp.cons.MissLeaving? && !M.Enabled(t.mp, M.MissLower)
  {
    Reachable(cfg, steps);
    RingDequeueSucceeds(cfg, Exec(cfg, Init(cfg), steps));
  }

  lemma RingDequeueSucceeds(cfg: Config, t: Stream)
    requires Inv(cfg, t)
    ensures t.sp.cons.CSawW? ==> (S.Apply(t.sp, S.TakeLoadR).cons.CIdle? <==> t.sp.r == t.sp.cons.w)
    ensures t.sp.cons.CSawR? ==> S.Apply(t.sp, S.TakeCheck).cons.CPassed?
  {
    if t.sp.cons.CSawW? {
      S.TakeRefusal(t.sp);
    } else if t.sp.cons.CSawR? {
      S.CheckPasses(t.sp);
    }
  }

  // ---- Stop ----

  /** Once the codec thread has returned, playback is not asleep, and if it still wants a frame one is pending. */
  lemma StopNeverStrands(cfg: Config, steps: seq<Step>)
    requires cfg.Valid() && Possible(cfg, Init(cfg), steps)
    ensures var t := Exec(cfg, Init(cfg), steps);
            t.codec.KExit? ==> !t.mp.cons.Waiting? && (Wanting(t) ==> t.mp.pending >= 1)
  {
    Reachable(cfg, steps);
    var t := Exec(cfg, Init(cfg), steps);
    if t.codec.KExit? && Wanting(t) {
      NotStranded(cfg, t);
    }
  }

  // What a run may spend: each spurious wakeup buys another pass through dequeue.
  function Allowance(cfg: Config, steps: seq<Step>): nat {
    if steps == [] then 0
    else (if steps[0].Spurious? then DequeueSteps(cfg.poolFrames) else 0) + Allowance(cfg, steps[1..])
  }

  lemma StepCosts(cfg: Config, s: Stream, a: Step)
    requires Inv(cfg, s) && !s.running && Enabled(cfg, s, a) && !a.Start?
    ensures Sized(cfg, Apply(cfg, s, a)) && !Apply(cfg, s, a).running
    ensures Rank(cfg, Apply(cfg, s, a)) < Rank(cfg, s) + (if a.Spurious? then DequeueSteps(cfg.poolFrames) else 0)
  {
    assert Stopping(s);
    match a {
      case Capture(read) =>
        CaptureAside(cfg, s, read);
        CaptureCosts(cfg, s, read);
      case Codec =>
        CodecCosts(cfg, s);
      case Playback(write) =>
        PlaybackAside(cfg, s, write);
        PlaybackCosts(cfg, s, write);
      case Spurious => SpuriousCosts(cfg, s);
      case Stop => StopCosts(cfg, s);
    }
  }

  predicate NoStart(steps: seq<Step>) {
    forall i :: 0 <= i < |steps| ==> !steps[i].Start?
  }

  lemma {:induction false} RunCosts(cfg: Config, s: Stream, steps: seq<Step>)
    requires Inv(cfg, s) && !s.running && Possible(cfg, s, steps) && NoStart(steps)
    ensures Inv(cfg, Exec(cfg, s, steps)) && !Exec(cfg, s, steps).running
    ensures |steps| + Rank(cfg, Exec(cfg, s, steps)) <= Rank(cfg, s) + Allowance(cfg, steps)
    decreases |steps|
  {
    if steps != [] {
      FirstCosts(cfg, s, steps[0]);
      NoStartTail(steps);
      RunCosts(cfg, Apply(cfg, s, steps[0]), steps[1..]);
    }
  }

  lemma FirstCosts(cfg: Config, s: Stream, a: Step)
    requires Inv(cfg, s) && !s.running && Enabled(cfg, s, a) && !a.Start?
    ensures var t := Apply(cfg, s, a);
            && Inv(cfg, t) && !t.running
            && Rank(cfg, t) < Rank(cfg, s) + (if a.Spurious? then DequeueSteps(cfg.poolFrames) else 0)
  {
    StepInv(cfg, s, a);
    StepCosts(cfg, s, a);
  }

  lemma NoStartTail(steps: seq<Step>)
    requires steps != [] && NoStart(steps)
    ensures !steps[0].Start? && NoStart(steps[1..])
  {
  }

  // A state that only a spurious wakeup or a start can leave.
  lemma Settled(cfg: Config, t: Stream)
    requires Inv(cfg, t) && !t.running && forall a: Step :: Enabled(cfg, t, a) ==> a.Spurious? || a.Start?
    ensures AllReturned(t) && t.stopper.SDone?
  {
    if !t.stopper.SDone? {
      NoDeadlock(cfg, t);
    }
  }

  /**
   Stop returns: after `running` has become false no run is longer, until the next start, than the
   budget of its first state plus that of its spurious wakeups, and a state in which only spurious wakeups
   and a start are possible is one in which all three threads have returned and been joined.
   */
  lemma StopReturns(cfg: Config, before: seq<Step>, after: seq<Step>)
    requires cfg.Valid() && Possible(cfg, Init(cfg), before)
    requires var s := Exec(cfg, Init(cfg), before); !s.running && Possible(cfg, s, after) && NoStart(after)
    ensures var s := Exec(cfg, Init(cfg), before);
            var t := Exec(cfg, s, after);
            && Sized(cfg, s) && |after| <= Rank(cfg, s) + Allowance(cfg, after)
            && ((forall a: Step :: Enabled(cfg, t, a) ==> a.Spurious? || a.Start?) ==> AllReturned(t) && t.stopper.SDone?)
  {
    Reachable(cfg, before);
    var s := Exec(cfg, Init(cfg), before);
    RunCosts(cfg, s, after);
    var t := Exec(cfg, s, after);
    if forall a: Step :: Enabled(cfg, t, a) ==> a.Spurious? || a.Start? {
      Settled(cfg, t);
    }
  }
}

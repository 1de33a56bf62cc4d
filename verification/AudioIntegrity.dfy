/**
 Pass-through integrity: what playback hands to the device is what capture read, byte for byte.
 */
module AudioIntegrity {
  import opened AudioStream
  import opened Arith
  import opened AudioInvariant
  import S = SpRing
  import M = MpPool

  // ---- The data invariant ----

  // A period the device may deliver.
  ghost predicate GoodPeriod(cfg: Config, p: Period) {
    p.n <= cfg.period && |p.pcm| == FramesToBytes(cfg, p.n) <= cfg.PeriodBytes()
  }

  ghost predicate Carries(f: Frame, p: Period) {
    f.size == |p.pcm| <= |f.buf| && f.buf[..f.size] == p.pcm
  }

  // Every committed frame carries its captured period, and no buffer has changed length.
  ghost predicate RingData(cfg: Config, s: Stream) {
    && |s.sp.committed| == |s.captured| == s.sp.w
    && (forall k :: 0 <= k < |s.captured| ==> GoodPeriod(cfg, s.captured[k]) && Carries(s.sp.committed[k], s.captured[k]))
    && (forall i :: 0 <= i < |s.sp.data| ==> |s.sp.data[i].buf| == cfg.PeriodBytes())
  }

  ghost predicate CaptureData(cfg: Config, s: Stream)
    requires Sized(cfg, s)
  {
    match s.cap
    case CFilled(p) => GoodPeriod(cfg, p) && |p.pcm| <= |CaptureFrame(cfg, s).buf| && CaptureFrame(cfg, s).buf[..|p.pcm|] == p.pcm
    case CCounted(p) => GoodPeriod(cfg, p) && Carries(CaptureFrame(cfg, s), p)
    case _ => true
  }

  // Frame i of the second pool holds something: it is published, or the codec has just filled it.
  ghost predicate Full(s: Stream, i: nat)
    requires |s.mp.prods| == 1 && i < s.mp.Count()
  {
    || s.mp.refs[i] == 2
    || ((s.codec.KCopied? || s.codec.KSend? || s.codec.KSendLast?) && s.mp.prods[0] == M.Owns(i))
  }

  // A full frame carries the captured period it came from, or is the sentinel.
  ghost predicate PoolData(cfg: Config, s: Stream)
    requires Sized(cfg, s)
  {
    && (forall i :: 0 <= i < |s.mpData| ==> |s.mpData[i].buf| == cfg.PeriodBytes())
    && (forall i :: 0 <= i < |s.mpData| && Full(s, i) ==>
          if s.origin[i] == -1 then s.mpData[i].size == 0
          else 0 <= s.origin[i] < |s.captured| && Carries(s.mpData[i], s.captured[s.origin[i]]))
  }

  ghost predicate DataInv(cfg: Config, s: Stream) {
    Sized(cfg, s) && RingData(cfg, s) && CaptureData(cfg, s) && PoolData(cfg, s)
  }

  // ---- Sizes ----

  lemma MulMonotone(a: nat, b: nat, k: nat)
    requires a <= b
    ensures a * k <= b * k
  {
  }

  /** A whole period fits 32 bits, so the byte count of a read is exact and fits the frame. */
  lemma BytesExact(cfg: Config, n: nat)
    requires cfg.Valid() && n <= cfg.period
    ensures FramesToBytes(cfg, n) == n * cfg.FrameBytes() <= cfg.PeriodBytes()
    ensures cfg.FrameBytes() == cfg.channels * match cfg.fmt case S16 => 2 case S24 => 3 case S32 => 4
  {
    MulMonotone(n, cfg.period, cfg.FrameBytes());
  }

  lemma DivisionInverts(n: nat, k: nat)
    requires k > 0
    ensures Quotient(n * k, k) == n
  {
    assert n * k == k * n + 0;
    UniqueRemainder(n * k, k, n, 0);
  }

  /** Playback recovers the number of frames from the byte size. */
  lemma FramesRecovered(cfg: Config, n: nat)
    requires cfg.Valid() && n <= cfg.period
    ensures BytesToFrames(cfg, FramesToBytes(cfg, n)) == n
  {
    BytesExact(cfg, n);
    DivisionInverts(n, cfg.FrameBytes());
  }

  // ---- Preservation ----

  lemma InitData(cfg: Config)
    requires cfg.Valid()
    ensures DataInv(cfg, Init(cfg))
  {
  }

  lemma CaptureKeepsData(cfg: Config, s: Stream, read: ReadResult)
    requires cfg.Valid() && CaptureEnabled(cfg, s, read) && DataInv(cfg, s)
    ensures DataInv(cfg, CaptureStep(cfg, s, read))
  {
    CaptureKeepsPoolData(cfg, s, read);
    if s.cap.CRead? {
      ReadKeepsRing(cfg, s, read);
    } else if s.cap.CFilled? {
      FilledKeepsRing(cfg, s, read);
    } else if s.cap.CCounted? {
      CommitKeepsRing(cfg, s, read);
    } else {
      OthersKeepRing(cfg, s, read);
    }
  }

  lemma ReadKeepsRing(cfg: Config, s: Stream, read: ReadResult)
    requires cfg.Valid() && CaptureEnabled(cfg, s, read) && DataInv(cfg, s) && s.cap.CRead?
    ensures RingData(cfg, CaptureStep(cfg, s, read)) && CaptureData(cfg, CaptureStep(cfg, s, read))
  {
    if read.Got? {
      BytesExact(cfg, read.p.n);
    }
  }

  lemma FilledKeepsRing(cfg: Config, s: Stream, read: ReadResult)
    requires CaptureEnabled(cfg, s, read) && DataInv(cfg, s) && s.cap.CFilled?
    ensures RingData(cfg, CaptureStep(cfg, s, read)) && CaptureData(cfg, CaptureStep(cfg, s, read))
  {
  }

  lemma CommitKeepsRing(cfg: Config, s: Stream, read: ReadResult)
    requires CaptureEnabled(cfg, s, read) && DataInv(cfg, s) && s.cap.CCounted?
    ensures RingData(cfg, CaptureStep(cfg, s, read)) && CaptureData(cfg, CaptureStep(cfg, s, read))
  {
  }

  lemma OthersKeepRing(cfg: Config, s: Stream, read: ReadResult)
    requires CaptureEnabled(cfg, s, read) && DataInv(cfg, s)
    requires !s.cap.CRead? && !s.cap.CFilled? && !s.cap.CCounted?
    ensures RingData(cfg, CaptureStep(cfg, s, read)) && CaptureData(cfg, CaptureStep(cfg, s, read))
  {
  }

  lemma CaptureKeepsPoolData(cfg: Config, s: Stream, read: ReadResult)
    requires CaptureEnabled(cfg, s, read) && DataInv(cfg, s)
    ensures Sized(cfg, CaptureStep(cfg, s, read)) && PoolData(cfg, CaptureStep(cfg, s, read))
  {
    var t := CaptureStep(cfg, s, read);
    assert t.mp == s.mp && t.mpData == s.mpData && t.origin == s.origin && t.codec == s.codec;
    assert s.captured <= t.captured;
  }

  // The copy fits, and afterwards the pool frame carries what the ring frame carried.
  lemma CopyCarries(dst: Frame, src: Frame, p: Period)
    requires Carries(src, p) && |p.pcm| <= |dst.buf|
    ensures var f := Frame(Overwrite(dst.buf, src.Payload()), src.size); Carries(f, p) && |f.buf| == |dst.buf|
  {
  }

  lemma CopyKeepsData(cfg: Config, s: Stream)
    requires CodecEnabled(cfg, s) && DataInv(cfg, s) && PoolsInv(cfg, s) && s.codec.KCopy?
    ensures DataInv(cfg, CodecStep(cfg, s))
    ensures |CodecFrame(cfg, s).Payload()| <= |s.mpData[s.mp.prods[0].f].buf|
  {
    var t, f, k := CodecStep(cfg, s), s.mp.prods[0].f, Last(s);
    S.ExclusiveFrames(s.sp, k);
    CopyCarries(s.mpData[f], CodecFrame(cfg, s), s.captured[k]);
    CodecFrameWhole(cfg, s, t, f);
  }

  // Only frame f of the pool was written.
  lemma CodecFrameWhole(cfg: Config, s: Stream, t: Stream, f: nat)
    requires DataInv(cfg, s) && f < cfg.poolFrames
    requires t == s.(mpData := t.mpData, origin := t.origin, codec := t.codec)
    requires |t.mpData| == |s.mpData| && |t.origin| == |s.origin|
    requires forall i :: 0 <= i < |s.mpData| && i != f ==> t.mpData[i] == s.mpData[i] && t.origin[i] == s.origin[i]
    requires forall i :: 0 <= i < |s.mpData| && i != f && Full(t, i) ==> Full(s, i)
    requires |t.mpData[f].buf| == cfg.PeriodBytes()
    requires if t.origin[f] == -1 then t.mpData[f].size == 0
             else 0 <= t.origin[f] < |s.captured| && Carries(t.mpData[f], s.captured[t.origin[f]])
    ensures DataInv(cfg, t)
  {
  }

  lemma ZeroKeepsData(cfg: Config, s: Stream)
    requires CodecEnabled(cfg, s) && DataInv(cfg, s) && s.codec.KZero?
    ensures DataInv(cfg, CodecStep(cfg, s))
  {
    CodecFrameWhole(cfg, s, CodecStep(cfg, s), s.mp.prods[0].f);
  }

  // The other codec steps write no frame and make none full.
  lemma CodecKeepsData(cfg: Config, s: Stream)
    requires CodecEnabled(cfg, s) && DataInv(cfg, s) && Links(s) && !s.codec.KCopy? && !s.codec.KZero?
    ensures DataInv(cfg, CodecStep(cfg, s))
  {
    var t := CodecStep(cfg, s);
    CodecKeepsFull(cfg, s);
  }

  // No frame written and none made full.
  ghost predicate SameData(s: Stream, t: Stream)
    requires |s.mp.prods| == |t.mp.prods| == 1 && |s.mpData| == s.mp.Count() == t.mp.Count()
  {
    && t.mpData == s.mpData && t.origin == s.origin && t.captured == s.captured && t.cap == s.cap
    && t.sp.data == s.sp.data && t.sp.committed == s.sp.committed && t.sp.w == s.sp.w
    && forall i :: 0 <= i < |s.mpData| && Full(t, i) ==> Full(s, i)
  }

  predicate InPool(k: Codec) {
    k.KAcquire? || k.KProbe? || k.KSend? || k.KSendLast?
  }

  lemma CodecKeepsFull(cfg: Config, s: Stream)
    requires CodecEnabled(cfg, s) && Links(s) && !s.codec.KCopy? && !s.codec.KZero?
    ensures Sized(cfg, CodecStep(cfg, s)) && SameData(s, CodecStep(cfg, s))
  {
    if InPool(s.codec) {
      PoolCallKeepsFull(cfg, s);
    } else {
      RingCallKeepsFull(cfg, s);
    }
  }

  lemma PoolCallKeepsFull(cfg: Config, s: Stream)
    requires CodecEnabled(cfg, s) && Links(s) && InPool(s.codec)
    ensures Sized(cfg, CodecStep(cfg, s)) && SameData(s, CodecStep(cfg, s))
  {
  }

  lemma RingCallKeepsFull(cfg: Config, s: Stream)
    requires CodecEnabled(cfg, s) && Links(s) && !s.codec.KCopy? && !s.codec.KZero? && !InPool(s.codec)
    ensures Sized(cfg, CodecStep(cfg, s)) && SameData(s, CodecStep(cfg, s))
  {
  }

  lemma PlaybackKeepsData(cfg: Config, s: Stream, write: WriteResult)
    requires PlaybackEnabled(cfg, s, write) && DataInv(cfg, s)
    ensures DataInv(cfg, PlaybackStep(cfg, s, write))
  {
    PlaybackKeepsFull(cfg, s, write);
  }

  lemma PlaybackKeepsFull(cfg: Config, s: Stream, write: WriteResult)
    requires PlaybackEnabled(cfg, s, write) && Sized(cfg, s)
    ensures Sized(cfg, PlaybackStep(cfg, s, write)) && SameData(s, PlaybackStep(cfg, s, write))
    ensures PlaybackStep(cfg, s, write).codec == s.codec
  {
    if s.play.PTake? {
      TakeKeepsFull(cfg, s, write);
    } else {
      OutputKeepsFull(cfg, s, write);
    }
  }

  lemma TakeKeepsFull(cfg: Config, s: Stream, write: WriteResult)
    requires PlaybackEnabled(cfg, s, write) && Sized(cfg, s) && s.play.PTake?
    ensures Sized(cfg, PlaybackStep(cfg, s, write)) && SameData(s, PlaybackStep(cfg, s, write))
    ensures PlaybackStep(cfg, s, write).codec == s.codec
  {
  }

  lemma OutputKeepsFull(cfg: Config, s: Stream, write: WriteResult)
    requires PlaybackEnabled(cfg, s, write) && Sized(cfg, s) && !s.play.PTake?
    ensures Sized(cfg, PlaybackStep(cfg, s, write)) && SameData(s, PlaybackStep(cfg, s, write))
    ensures PlaybackStep(cfg, s, write).codec == s.codec
  {
  }

  lemma SpuriousKeepsData(cfg: Config, s: Stream)
    requires SpuriousEnabled(cfg, s) && DataInv(cfg, s)
    ensures DataInv(cfg, SpuriousStep(cfg, s))
  {
    assert forall i :: 0 <= i < |s.mpData| ==> Full(SpuriousStep(cfg, s), i) == Full(s, i);
  }

  lemma StopKeepsData(cfg: Config, s: Stream)
    requires StopEnabled(cfg, s) && DataInv(cfg, s)
    ensures DataInv(cfg, StopStep(cfg, s))
  {
    assert forall i :: 0 <= i < |s.mpData| ==> Full(StopStep(cfg, s), i) == Full(s, i);
  }

  lemma StartKeepsData(cfg: Config, s: Stream)
    requires StartEnabled(cfg, s) && DataInv(cfg, s) && s.codec.KExit?
    ensures DataInv(cfg, StartStep(cfg, s))
  {
    assert forall i :: 0 <= i < |s.mpData| ==> Full(StartStep(cfg, s), i) == Full(s, i);
  }
}

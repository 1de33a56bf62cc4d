/**
 The stop protocol: once `running` is false the codec drains the ring and posts a sentinel, or finds
 the pool full of ready frames a hundred times; either way playback is not left waiting.
 */
module AudioStop {
  import opened AudioStream
  import opened AudioInvariant
  import opened AudioIntegrity
  import M = MpPool

  // The codec has left its forwarding loop.
  predicate Ending(k: AudioStream.Codec) {
    k.KDrain? || k.KDrained? || k.KProbe? || k.KZero? || k.KSendLast? || k.KExit?
  }

  // Playback entered a dequeue and has not taken a frame yet.
  predicate Wanting(s: Stream) {
    s.play.PTake? && !s.mp.cons.Leaving?
  }

  ghost predicate SomeReady(s: Stream) {
    exists i :: 0 <= i < s.mp.Count() && s.mp.refs[i] == 2
  }

  // Every frame the codec's probe has passed is ready: nobody has released one meanwhile.
  ghost predicate Passed(s: Stream)
    requires |s.mp.prods| == 1
  {
    s.mp.prods[0].Probing? ==> forall i :: 0 <= i < s.mp.Count() && i < s.mp.prods[0].i ==> s.mp.refs[i] == 2
  }

  // What playback finds if it is still in the dequeue it began before the stop.
  ghost predicate Supplied(s: Stream)
    requires |s.mp.prods| == 1
  {
    match s.codec
    case KProbe(retry) => Passed(s) && (retry > 0 ==> SomeReady(s))
    case KSendLast => !s.mp.prods[0].Owns? ==> SomeReady(s)
    case KExit => SomeReady(s)
    case _ => true
  }

  ghost predicate StopInv(cfg: Config, s: Stream) {
    && Sized(cfg, s)
    && (s.running <==> s.stopper.SRun?)
    && (Ending(s.codec) ==> !s.running)
    && (Wanting(s) ==> Supplied(s))
    && (s.stopper.SJoinCodec? || s.stopper.SJoinPlayback? || s.stopper.SDone? ==> s.cap.CExit?)
    && (s.stopper.SJoinPlayback? || s.stopper.SDone? ==> s.codec.KExit?)
    && (s.stopper.SDone? ==> s.play.PExit?)
  }

  // An empty frame that the last start did not find is the stopping codec's sentinel, or carries a
  // period that was still to be forwarded at that start or has been captured since.
  ghost predicate SentinelInv(cfg: Config, s: Stream) {
    && Sized(cfg, s)
    && s.since.ring <= s.sp.r && (s.sp.held != {} ==> s.since.ring < s.sp.r)
    && (forall i :: 0 <= i < |s.origin| && Full(s, i) && s.mpData[i].size == 0 ==>
          s.since.stale || Ending(s.codec) || s.origin[i] >= s.since.ring)
  }

  lemma InitStop(cfg: Config)
    requires cfg.Valid()
    ensures StopInv(cfg, Init(cfg)) && SentinelInv(cfg, Init(cfg))
  {
  }

  lemma CaptureKeepsStop(cfg: Config, s: Stream, read: ReadResult)
    requires CaptureEnabled(cfg, s, read) && StopInv(cfg, s) && SentinelInv(cfg, s)
    ensures StopInv(cfg, CaptureStep(cfg, s, read)) && SentinelInv(cfg, CaptureStep(cfg, s, read))
  {
    var t := CaptureStep(cfg, s, read);
    CaptureAside(cfg, s, read);
    assert forall i :: 0 <= i < |s.origin| ==> Full(t, i) == Full(s, i);
  }

  lemma CaptureAside(cfg: Config, s: Stream, read: ReadResult)
    requires CaptureEnabled(cfg, s, read)
    ensures var t := CaptureStep(cfg, s, read);
            && Sized(cfg, t) && t.mp == s.mp && t.mpData == s.mpData && t.origin == s.origin && t.running == s.running
            && t.sp.r == s.sp.r && t.sp.held == s.sp.held && t.since == s.since
            && t.codec == s.codec && t.play == s.play && t.stopper == s.stopper
  {
  }

  lemma CodecKeepsStop(cfg: Config, s: Stream)
    requires CodecEnabled(cfg, s) && PoolsInv(cfg, s) && StopInv(cfg, s)
    ensures StopInv(cfg, CodecStep(cfg, s))
  {
    if s.codec.KProbe? {
      ProbeKeepsStop(cfg, s);
    } else if s.codec.KSendLast? {
      SentinelKeepsStop(cfg, s);
    } else if Taking(s.codec) || Forwarding(s.codec) {
      ForwardKeepsStop(cfg, s);
    } else {
      DrainKeepsStop(cfg, s);
    }
  }

  lemma ForwardKeepsStop(cfg: Config, s: Stream)
    requires CodecEnabled(cfg, s) && StopInv(cfg, s) && (Taking(s.codec) || Forwarding(s.codec))
    ensures StopInv(cfg, CodecStep(cfg, s))
  {
  }

  lemma DrainKeepsStop(cfg: Config, s: Stream)
    requires CodecEnabled(cfg, s) && Links(s) && StopInv(cfg, s) && (Draining(s.codec) || s.codec.KZero?)
    ensures StopInv(cfg, CodecStep(cfg, s))
  {
  }

  // With playback in its dequeue, a frame the probe cannot claim is a ready one.
  lemma ProbeKeepsStop(cfg: Config, s: Stream)
    requires CodecEnabled(cfg, s) && PoolsInv(cfg, s) && StopInv(cfg, s) && s.codec.KProbe?
    ensures StopInv(cfg, CodecStep(cfg, s))
  {
    var p := s.mp.prods[0];
    assert p.Probing? && p.i < s.mp.Count() ==> s.mp.refs[p.i] != 1;
    if p.Probing? && p.i >= s.mp.Count() && Wanting(s) {
      assert s.mp.refs[0] == 2;
    }
  }

  lemma SentinelKeepsStop(cfg: Config, s: Stream)
    requires CodecEnabled(cfg, s) && PoolsInv(cfg, s) && StopInv(cfg, s) && s.codec.KSendLast?
    ensures StopInv(cfg, CodecStep(cfg, s))
  {
    var t := CodecStep(cfg, s);
    if s.mp.prods[0].Owns? {
      assert t.mp.refs[s.mp.prods[0].f] == 2;
    } else {
      assert t.mp.refs == s.mp.refs;
    }
  }

  lemma CodecKeepsSentinel(cfg: Config, s: Stream)
    requires CodecEnabled(cfg, s) && Links(s) && StopInv(cfg, s) && SentinelInv(cfg, s)
    ensures SentinelInv(cfg, CodecStep(cfg, s))
  {
    var t := CodecStep(cfg, s);
    CodecTakes(cfg, s);
    if s.codec.KCopy? || s.codec.KZero? {
      assert forall i :: 0 <= i < |s.origin| && i != s.mp.prods[0].f && Full(t, i) ==> Full(s, i);
    } else {
      CodecKeepsFull(cfg, s);
      CodecEnds(cfg, s);
    }
  }

  // The codec holds a ring frame only after it has moved the read index over it.
  lemma CodecTakes(cfg: Config, s: Stream)
    requires CodecEnabled(cfg, s)
    ensures var t := CodecStep(cfg, s);
            && t.since == s.since && t.sp.r >= s.sp.r
            && (t.sp.held != {} ==> s.sp.held != {} || t.sp.r > s.sp.r)
  {
  }

  lemma CodecEnds(cfg: Config, s: Stream)
    requires CodecEnabled(cfg, s)
    ensures Ending(s.codec) ==> Ending(CodecStep(cfg, s).codec)
  {
  }

  lemma PlaybackKeepsStop(cfg: Config, s: Stream, write: WriteResult)
    requires PlaybackEnabled(cfg, s, write) && Links(s) && StopInv(cfg, s)
    ensures StopInv(cfg, PlaybackStep(cfg, s, write))
  {
    var t := PlaybackStep(cfg, s, write);
    PlaybackAside(cfg, s, write);
    if s.play.PTake? {
      assert t.mp.refs == s.mp.refs;
    }
  }

  // Playback does not enter a dequeue once the stream is stopping.
  lemma PlaybackAside(cfg: Config, s: Stream, write: WriteResult)
    requires PlaybackEnabled(cfg, s, write) && Links(s)
    ensures var t := PlaybackStep(cfg, s, write);
            && Sized(cfg, t) && t.mp.prods == s.mp.prods && t.running == s.running
            && t.cap == s.cap && t.codec == s.codec && t.stopper == s.stopper && t.since == s.since
            && (Wanting(t) ==> Wanting(s) || s.running)
            && (s.play.PTake? ==> t.mp.refs == s.mp.refs)
  {
  }

  lemma PlaybackKeepsSentinel(cfg: Config, s: Stream, write: WriteResult)
    requires PlaybackEnabled(cfg, s, write) && Links(s) && SentinelInv(cfg, s)
    ensures SentinelInv(cfg, PlaybackStep(cfg, s, write))
  {
    PlaybackKeepsFull(cfg, s, write);
    PlaybackAside(cfg, s, write);
  }

  lemma SpuriousKeepsStop(cfg: Config, s: Stream)
    requires SpuriousEnabled(cfg, s) && StopInv(cfg, s) && SentinelInv(cfg, s)
    ensures StopInv(cfg, SpuriousStep(cfg, s)) && SentinelInv(cfg, SpuriousStep(cfg, s))
  {
    var t := SpuriousStep(cfg, s);
    assert t.mp.refs == s.mp.refs;
    assert forall i :: 0 <= i < |s.origin| ==> Full(t, i) == Full(s, i);
  }

  lemma StopKeepsStop(cfg: Config, s: Stream)
    requires StopEnabled(cfg, s) && StopInv(cfg, s) && SentinelInv(cfg, s)
    ensures StopInv(cfg, StopStep(cfg, s)) && SentinelInv(cfg, StopStep(cfg, s))
  {
    var t := StopStep(cfg, s);
    assert t.mp == s.mp;
    assert forall i :: 0 <= i < |s.origin| ==> Full(t, i) == Full(s, i);
  }

  lemma StartKeepsStop(cfg: Config, s: Stream)
    requires StartEnabled(cfg, s) && PoolsInv(cfg, s) && StopInv(cfg, s)
    ensures StopInv(cfg, StartStep(cfg, s)) && SentinelInv(cfg, StartStep(cfg, s))
  {
    var t := StartStep(cfg, s);
    forall i | 0 <= i < |t.origin| && Full(t, i) && t.mpData[i].size == 0 ensures t.since.stale {
      assert s.mp.refs[i] >= 2 && s.mpData[i].size == 0;
    }
  }

  // ---- Not stranded ----

  /** After the codec thread has returned, a playback thread still in its dequeue has a frame to take and is not asleep. */
  lemma NotStranded(cfg: Config, s: Stream)
    requires PoolsInv(cfg, s) && StopInv(cfg, s) && s.codec.KExit? && Wanting(s)
    ensures s.mp.pending >= 1 && !s.mp.cons.Waiting?
  {
    var i :| 0 <= i < s.mp.Count() && s.mp.refs[i] == 2;
    assert i in M.Ready(s.mp);
    assert M.InFlight(s.mp) == {};
  }
}

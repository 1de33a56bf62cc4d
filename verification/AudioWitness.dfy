/**
 Two runs that every configuration has: one that stops and leaves the sentinel behind for the next
 start, and one in which an empty read ends playback.
 */
module AudioWitness {
  import opened AudioStream
  import opened AudioInvariant
  import opened AudioTheorems
  import opened AudioRestart
  import S = SpRing
  import M = MpPool

  // ---- One step of a thread ----

  lemma CodecGoes(cfg: Config, s: Stream, t: Stream) returns (u: Stream)
    requires Sized(cfg, t) && Reaches(cfg, s, t) && CodecEnabled(cfg, t)
    ensures u == CodecStep(cfg, t) && Reaches(cfg, s, u)
  {
    u := CodecStep(cfg, t);
    ReachesNext(cfg, s, t, Codec);
  }

  lemma CaptureGoes(cfg: Config, s: Stream, t: Stream, read: ReadResult) returns (u: Stream)
    requires Sized(cfg, t) && Reaches(cfg, s, t) && CaptureEnabled(cfg, t, read)
    ensures u == CaptureStep(cfg, t, read) && Reaches(cfg, s, u)
  {
    u := CaptureStep(cfg, t, read);
    ReachesNext(cfg, s, t, Capture(read));
  }

  lemma StopGoes(cfg: Config, s: Stream, t: Stream) returns (u: Stream)
    requires Sized(cfg, t) && Reaches(cfg, s, t) && StopEnabled(cfg, t)
    ensures u == StopStep(cfg, t) && Reaches(cfg, s, u)
  {
    u := StopStep(cfg, t);
    ReachesNext(cfg, s, t, Stop);
  }

  lemma ReachedInv(cfg: Config, t: Stream)
    requires cfg.Valid() && Reaches(cfg, Init(cfg), t)
    ensures Inv(cfg, t)
  {
    var steps :| Possible(cfg, Init(cfg), steps) && Exec(cfg, Init(cfg), steps) == t;
    Reachable(cfg, steps);
  }

  // ---- The codec claims the first frame and sends it ----

  lemma ClaimBegins(cfg: Config, s: Stream)
    requires Sized(cfg, s) && (s.codec.KAcquire? || s.codec.KProbe?) && s.mp.prods[0].Idle?
    ensures CodecEnabled(cfg, s) && CodecStep(cfg, s) == s.(mp := s.mp.(prods := [M.Probing(0)]))
  {
    assert s.mp.prods[0 := M.Probing(0)] == [M.Probing(0)];
  }

  lemma ClaimSucceeds(cfg: Config, s: Stream)
    requires Sized(cfg, s) && (s.codec.KAcquire? || s.codec.KProbe?) && s.mp.prods[0] == M.Probing(0) && s.mp.refs[0] == 0
    ensures CodecEnabled(cfg, s)
    ensures CodecStep(cfg, s) == s.(mp := s.mp.(refs := s.mp.refs[0 := 1], prods := [M.Owns(0)]),
                                    codec := if s.codec.KAcquire? then KCopy else KZero)
  {
    assert s.mp.prods[0 := M.Owns(0)] == [M.Owns(0)];
  }

  lemma Claims(cfg: Config, s: Stream, t: Stream) returns (u: Stream)
    requires Sized(cfg, t) && Reaches(cfg, s, t)
    requires (t.codec.KAcquire? || t.codec.KProbe?) && t.mp.prods[0].Idle? && t.mp.refs[0] == 0
    ensures Sized(cfg, u) && Reaches(cfg, s, u)
    ensures u == t.(mp := t.mp.(refs := t.mp.refs[0 := 1], prods := [M.Owns(0)]),
                    codec := if t.codec.KAcquire? then KCopy else KZero)
  {
    ClaimBegins(cfg, t);
    u := CodecGoes(cfg, s, t);
    ClaimSucceeds(cfg, u);
    u := CodecGoes(cfg, s, u);
  }

  // The five steps of an enqueue that nobody waits for
  lemma SendGoes(cfg: Config, s: Stream)
    requires Sized(cfg, s) && (s.codec.KSend? || s.codec.KSendLast?) && s.mp.cons.Resting?
    requires var p := s.mp.prods[0];
             (p == M.Owns(0) && s.mp.refs[0] == 1) || (p.Bumped? && s.mp.mutex.Free?) || p.Inside? || p.Counted?
    ensures CodecEnabled(cfg, s)
    ensures var p := s.mp.prods[0];
            CodecStep(cfg, s) == s.(mp :=
              if p.Owns? then s.mp.(refs := s.mp.refs[0 := 2], prods := [M.Bumped])
              else if p.Bumped? then s.mp.(mutex := M.ByProducer(0), prods := [M.Inside])
              else if p.Inside? then s.mp.(pending := s.mp.pending + 1, prods := [M.Counted])
              else s.mp.(prods := [M.Signalled]))
  {
    assert forall p :: s.mp.prods[0 := p] == [p];
  }

  lemma SendEnds(cfg: Config, s: Stream)
    requires Sized(cfg, s) && (s.codec.KSend? || s.codec.KSendLast?) && s.mp.prods[0].Signalled?
    ensures CodecEnabled(cfg, s)
    ensures CodecStep(cfg, s) == s.(mp := s.mp.(mutex := M.Free, prods := [M.Idle]), codec := if s.codec.KSend? then KTop else KExit)
  {
    assert s.mp.prods[0 := M.Idle] == [M.Idle];
  }

  function Sent(t: Stream): Stream
    requires |t.mp.refs| > 0
  {
    t.(mp := t.mp.(refs := t.mp.refs[0 := 2], pending := t.mp.pending + 1, mutex := M.Free, prods := [M.Idle]),
       codec := if t.codec.KSend? then KTop else KExit)
  }

  lemma Publishes(cfg: Config, s: Stream, t: Stream) returns (u: Stream)
    requires Sized(cfg, t) && Reaches(cfg, s, t) && (t.codec.KSend? || t.codec.KSendLast?)
    requires t.mp.prods[0] == M.Owns(0) && t.mp.refs[0] == 1 && t.mp.mutex.Free? && t.mp.cons.Resting?
    ensures Sized(cfg, u) && Reaches(cfg, s, u)
    ensures u == t.(mp := t.mp.(refs := t.mp.refs[0 := 2], mutex := M.ByProducer(0), prods := [M.Inside]))
  {
    SendGoes(cfg, t);
    u := CodecGoes(cfg, s, t);
    SendGoes(cfg, u);
    u := CodecGoes(cfg, s, u);
  }

  lemma CountsUp(cfg: Config, s: Stream, t: Stream) returns (u: Stream)
    requires Sized(cfg, t) && Reaches(cfg, s, t) && (t.codec.KSend? || t.codec.KSendLast?)
    requires t.mp.prods[0].Inside? && t.mp.cons.Resting?
    ensures Sized(cfg, u) && Reaches(cfg, s, u)
    ensures u == t.(mp := t.mp.(pending := t.mp.pending + 1, prods := [M.Signalled]))
  {
    SendGoes(cfg, t);
    u := CodecGoes(cfg, s, t);
    SendGoes(cfg, u);
    u := CodecGoes(cfg, s, u);
  }

  lemma Counts(cfg: Config, s: Stream, t: Stream) returns (u: Stream)
    requires Sized(cfg, t) && Reaches(cfg, s, t) && (t.codec.KSend? || t.codec.KSendLast?)
    requires t.mp.prods[0].Inside? && t.mp.cons.Resting?
    ensures Sized(cfg, u) && Reaches(cfg, s, u)
    ensures u == t.(mp := t.mp.(pending := t.mp.pending + 1, mutex := M.Free, prods := [M.Idle]),
                    codec := if t.codec.KSend? then KTop else KExit)
  {
    u := CountsUp(cfg, s, t);
    SendEnds(cfg, u);
    u := CodecGoes(cfg, s, u);
  }

  lemma Sends(cfg: Config, s: Stream, t: Stream) returns (u: Stream)
    requires Sized(cfg, t) && Reaches(cfg, s, t) && (t.codec.KSend? || t.codec.KSendLast?)
    requires t.mp.prods[0] == M.Owns(0) && t.mp.refs[0] == 1 && t.mp.mutex.Free? && t.mp.cons.Resting?
    ensures Sized(cfg, u) && Reaches(cfg, s, u) && u == Sent(t)
  {
    u := Publishes(cfg, s, t);
    u := Counts(cfg, s, u);
  }

  // ---- A stop that leaves its sentinel ----

  // Stop is called, and capture returns at once.
  lemma StopsAtOnce(cfg: Config) returns (t: Stream)
    requires cfg.Valid()
    ensures Sized(cfg, t) && Reaches(cfg, Init(cfg), t)
    ensures t == Init(cfg).(running := false, cap := CExit, stopper := SJoinCodec)
  {
    ReachesItself(cfg, Init(cfg));
    t := StopGoes(cfg, Init(cfg), Init(cfg));
    t := CaptureGoes(cfg, Init(cfg), t, ReadError);
    t := StopGoes(cfg, Init(cfg), t);
  }

  lemma DrainGoes(cfg: Config, s: Stream)
    requires Sized(cfg, s) && !s.running && s.sp.r == s.sp.w && s.sp.held == {} && !s.sp.cons.CSawR? && !s.sp.cons.CPassed?
    requires s.codec.KTop? || (s.codec.KDrain? && (s.sp.cons.CIdle? || s.sp.cons == S.CSawW(s.sp.w)))
    ensures CodecEnabled(cfg, s)
    ensures CodecStep(cfg, s) ==
              if s.codec.KTop? then s.(codec := KDrain)
              else if s.sp.cons.CIdle? then s.(sp := s.sp.(cons := S.CSawW(s.sp.w)))
              else s.(sp := s.sp.(cons := S.CIdle), codec := KProbe(0))
  {
  }

  lemma Drains(cfg: Config, s: Stream, t: Stream) returns (u: Stream)
    requires Sized(cfg, t) && Reaches(cfg, s, t) && t.codec.KTop? && !t.running
    requires t.sp.r == t.sp.w && t.sp.held == {} && t.sp.cons.CIdle?
    ensures Sized(cfg, u) && Reaches(cfg, s, u) && u == t.(codec := KProbe(0))
  {
    DrainGoes(cfg, t);
    u := CodecGoes(cfg, s, t);
    DrainGoes(cfg, u);
    u := CodecGoes(cfg, s, u);
    DrainGoes(cfg, u);
    u := CodecGoes(cfg, s, u);
  }

  lemma ZeroGoes(cfg: Config, s: Stream)
    requires Sized(cfg, s) && s.codec.KZero? && s.mp.prods[0] == M.Owns(0)
    ensures CodecEnabled(cfg, s)
    ensures CodecStep(cfg, s) == s.(mpData := s.mpData[0 := s.mpData[0].(size := 0)], origin := s.origin[0 := -1], codec := KSendLast)
  {
  }

  // The codec finds the ring empty and posts the sentinel.
  lemma PostsSentinel(cfg: Config) returns (t: Stream)
    requires cfg.Valid()
    ensures Sized(cfg, t) && Reaches(cfg, Init(cfg), t)
    ensures !t.running && t.cap.CExit? && t.stopper.SJoinCodec? && t.codec.KExit? && t.play.PTop? && t.captured == []
    ensures t.mp.refs[0] == 2 && t.mpData[0].size == 0
  {
    t := StopsAtOnce(cfg);
    t := Drains(cfg, Init(cfg), t);
    t := Claims(cfg, Init(cfg), t);
    ZeroGoes(cfg, t);
    t := CodecGoes(cfg, Init(cfg), t);
    t := Sends(cfg, Init(cfg), t);
  }

  lemma LastJoins(cfg: Config, s: Stream, t: Stream) returns (u: Stream)
    requires Sized(cfg, t) && Reaches(cfg, s, t)
    requires !t.running && t.stopper.SJoinCodec? && t.codec.KExit? && t.play.PTop?
    ensures Sized(cfg, u) && Reaches(cfg, s, u) && u == t.(play := PExit, stopper := SDone)
  {
    u := StopGoes(cfg, s, t);
    ReachesNext(cfg, s, u, Playback(WriteError));
    u := PlaybackStep(cfg, u, WriteError);
    u := StopGoes(cfg, s, u);
  }

  /**
   Every configuration has a run that starts, stops, and leaves the sentinel in the pool: playback was
   at the top of its loop. The next start is not clean.
   */
  lemma StaleSentinel(cfg: Config) returns (s: Stream)
    requires cfg.Valid()
    ensures Reaches(cfg, Init(cfg), s) && StartEnabled(cfg, s) && EmptyReady(cfg, s) && s.captured == []
    ensures !Clean(cfg, StartStep(cfg, s))
  {
    s := PostsSentinel(cfg);
    s := LastJoins(cfg, Init(cfg), s);
    assert s.mp.refs[0] >= 2 && s.mpData[0].size == 0;
    ReachedInv(cfg, s);
    CleanStart(cfg, s);
  }

  // ---- An empty read ----

  const NOTHING: Period := Period(0, [])

  lemma NoBytes(cfg: Config)
    ensures FramesToBytes(cfg, 0) == 0
  {
  }

  // The steps of capture on an empty ring, one by one
  lemma AcquireGoes(cfg: Config, s: Stream)
    requires Sized(cfg, s) && s.running && s.sp.w == 0 && s.sp.r == 0 && s.sp.refs[0] == 0
    requires (s.cap.CTop? && s.sp.prod.PIdle?) ||
             (s.cap.CAcquire? && (s.sp.prod.PIdle? || s.sp.prod == S.PSawW(0) || s.sp.prod == S.PSawR(0, 0)))
    ensures CaptureEnabled(cfg, s, ReadError)
    ensures CaptureStep(cfg, s, ReadError) ==
              if s.cap.CTop? then s.(cap := CAcquire)
              else if s.sp.prod.PIdle? then s.(sp := s.sp.(prod := S.PSawW(0)))
              else if s.sp.prod.PSawW? then s.(sp := s.sp.(prod := S.PSawR(0, 0)))
              else s.(sp := s.sp.(refs := s.sp.refs[0 := 1], prod := S.POwns), cap := CRead)
  {
    assert s.sp.Slot(0) == 0;
  }

  // Capture acquires the first frame of an empty ring.
  lemma AcquiresFirst(cfg: Config, s: Stream) returns (t: Stream)
    requires Sized(cfg, s) && s.running && s.cap.CTop? && s.sp.prod.PIdle? && s.sp.w == 0 && s.sp.r == 0 && s.sp.refs[0] == 0
    ensures Sized(cfg, t) && Reaches(cfg, s, t)
    ensures t == s.(sp := s.sp.(refs := s.sp.refs[0 := 1], prod := S.POwns), cap := CRead)
  {
    ReachesItself(cfg, s);
    AcquireGoes(cfg, s);
    t := CaptureGoes(cfg, s, s, ReadError);
    AcquireGoes(cfg, t);
    t := CaptureGoes(cfg, s, t, ReadError);
    AcquireGoes(cfg, t);
    t := CaptureGoes(cfg, s, t, ReadError);
    AcquireGoes(cfg, t);
    t := CaptureGoes(cfg, s, t, ReadError);
  }

  lemma ReadGoes(cfg: Config, s: Stream)
    requires Sized(cfg, s) && s.cap.CRead? && s.sp.prod.POwns?
    ensures CaptureEnabled(cfg, s, Got(NOTHING))
    ensures var t := CaptureStep(cfg, s, Got(NOTHING));
            t == s.(sp := s.sp.(data := t.sp.data), capXruns := 0, cap := CFilled(NOTHING))
  {
    NoBytes(cfg);
  }

  lemma FillGoes(cfg: Config, s: Stream)
    requires Sized(cfg, s) && s.cap == CFilled(NOTHING) && s.sp.prod.POwns? && s.sp.w == 0
    ensures CaptureEnabled(cfg, s, ReadError)
    ensures var t := CaptureStep(cfg, s, ReadError);
            t == s.(sp := s.sp.(data := t.sp.data), capFrames := t.capFrames, capTotal := t.capTotal, cap := CCounted(NOTHING)) &&
            t.sp.data[0].size == 0
  {
    NoBytes(cfg);
    assert s.sp.Slot(0) == 0;
  }

  lemma CommitGoes(cfg: Config, s: Stream)
    requires Sized(cfg, s) && s.cap == CCounted(NOTHING) && s.sp.prod.POwns? && s.sp.w == 0
    ensures CaptureEnabled(cfg, s, ReadError)
    ensures var t := CaptureStep(cfg, s, ReadError);
            t == s.(sp := s.sp.(w := 1, committed := t.sp.committed, prod := S.PIdle),
                    captured := s.captured + [NOTHING], playedBy := s.playedBy + [0], cap := CTop)
  {
  }

  // A frame without a byte is the only one captured, and the second pool is untouched.
  ghost predicate FirstEmpty(cfg: Config, t: Stream) {
    && Sized(cfg, t) && t.running && !t.error && t.play.PTop?
    && t.sp.refs[0] == 1 && t.sp.data[0].size == 0 && t.captured == [NOTHING] && t.since.starts == 1
    && t.mp.prods[0].Idle? && t.mp.refs[0] == 0 && t.mp.mutex.Free? && t.mp.cons.Resting?
  }

  lemma ReadsNothing(cfg: Config, s: Stream, t: Stream) returns (u: Stream)
    requires Sized(cfg, t) && Reaches(cfg, s, t) && t.cap.CRead? && t.sp.prod.POwns? && t.sp.w == 0
    ensures Sized(cfg, u) && Reaches(cfg, s, u) && u.sp.data[0].size == 0
    ensures u == t.(sp := t.sp.(data := u.sp.data, w := 1, committed := u.sp.committed, prod := S.PIdle), capXruns := 0,
                    capFrames := u.capFrames, capTotal := u.capTotal,
                    captured := t.captured + [NOTHING], playedBy := t.playedBy + [0], cap := CTop)
  {
    ReadGoes(cfg, t);
    u := CaptureGoes(cfg, s, t, Got(NOTHING));
    FillGoes(cfg, u);
    u := CaptureGoes(cfg, s, u, ReadError);
    CommitGoes(cfg, u);
    u := CaptureGoes(cfg, s, u, ReadError);
  }

  lemma CapturesNothing(cfg: Config) returns (t: Stream)
    requires cfg.Valid()
    ensures Sized(cfg, t) && Reaches(cfg, Init(cfg), t) && FirstEmpty(cfg, t)
    ensures t.codec.KTop? && t.sp.w == 1 && t.sp.r == 0 && t.sp.cons.CIdle? && t.sp.held == {}
  {
    t := AcquiresFirst(cfg, Init(cfg));
    t := ReadsNothing(cfg, Init(cfg), t);
  }

  lemma TakeGoes(cfg: Config, s: Stream)
    requires Sized(cfg, s) && s.codec.KTake? && s.sp.w == 1 && s.sp.r == 0 && s.sp.held == {} && s.sp.refs[0] == 1
    requires s.sp.cons.CIdle? || s.sp.cons == S.CSawW(1) || s.sp.cons == S.CSawR(0) || s.sp.cons == S.CPassed(0)
    ensures CodecEnabled(cfg, s) && s.sp.Slot(0) == 0
    ensures var sp := CodecStep(cfg, s).sp;
            && CodecStep(cfg, s) == s.(sp := sp, codec := if s.sp.cons.CPassed? then KAcquire else KTake)
            && sp.refs == s.sp.refs && sp.data == s.sp.data && sp.w == 1
            && (if s.sp.cons.CPassed? then sp.r == 1 && sp.held == {0} && sp.cons.CIdle?
                else sp.r == 0 && sp.held == {} &&
                     sp.cons == if s.sp.cons.CIdle? then S.CSawW(1) else if s.sp.cons.CSawW? then S.CSawR(0) else S.CPassed(0))
  {
  }

  lemma CodecBegins(cfg: Config, s: Stream)
    requires Sized(cfg, s) && s.codec.KTop? && s.running
    ensures CodecEnabled(cfg, s) && CodecStep(cfg, s) == s.(codec := KTake)
  {
  }

  // The codec dequeues it.
  lemma Takes(cfg: Config, s: Stream, t: Stream) returns (u: Stream)
    requires Sized(cfg, t) && Reaches(cfg, s, t) && t.codec.KTop? && FirstEmpty(cfg, t)
    requires t.sp.w == 1 && t.sp.r == 0 && t.sp.cons.CIdle? && t.sp.held == {}
    ensures Sized(cfg, u) && Reaches(cfg, s, u) && FirstEmpty(cfg, u) && u.codec.KTake?
    ensures u.sp.w == 1 && u.sp.r == 0 && u.sp.cons == S.CSawR(0) && u.sp.held == {}
  {
    CodecBegins(cfg, t);
    u := CodecGoes(cfg, s, t);
    TakeGoes(cfg, u);
    u := CodecGoes(cfg, s, u);
    TakeGoes(cfg, u);
    u := CodecGoes(cfg, s, u);
  }

  lemma TakesNothing(cfg: Config) returns (t: Stream)
    requires cfg.Valid()
    ensures Sized(cfg, t) && Reaches(cfg, Init(cfg), t)
    ensures FirstEmpty(cfg, t) && t.codec.KAcquire? && t.sp.r == 1 && t.sp.held == {0} && t.sp.cons.CIdle?
  {
    t := CapturesNothing(cfg);
    t := Takes(cfg, Init(cfg), t);
    TakeGoes(cfg, t);
    t := CodecGoes(cfg, Init(cfg), t);
    TakeGoes(cfg, t);
    t := CodecGoes(cfg, Init(cfg), t);
  }

  lemma CopyGoes(cfg: Config, s: Stream)
    requires Sized(cfg, s) && s.codec.KCopy? && s.mp.prods[0] == M.Owns(0) && s.sp.r == 1 && s.sp.data[0].size == 0
    ensures CodecEnabled(cfg, s)
    ensures var t := CodecStep(cfg, s);
            t == s.(mpData := t.mpData, origin := t.origin, codec := KCopied) && t.mpData[0].size == 0
  {
    assert s.sp.Slot(0) == 0;
  }

  lemma ReleaseGoes(cfg: Config, s: Stream)
    requires Sized(cfg, s) && s.codec.KCopied? && S.Enabled(s.sp, S.Release(Last(s)))
    ensures CodecEnabled(cfg, s)
    ensures var t := CodecStep(cfg, s);
            t == s.(sp := t.sp, forwarded := t.forwarded, codec := KSend)
  {
  }

  lemma Forwards(cfg: Config, s: Stream, t: Stream) returns (u: Stream)
    requires Sized(cfg, t) && Reaches(cfg, s, t)
    requires t.codec.KCopy? && t.mp.prods[0] == M.Owns(0) && t.sp.r == 1 && t.sp.held == {0} && t.sp.cons.CIdle? && t.sp.data[0].size == 0
    ensures Sized(cfg, u) && Reaches(cfg, s, u) && u.mpData[0].size == 0
    ensures u == t.(mpData := u.mpData, origin := u.origin, sp := u.sp, forwarded := u.forwarded, codec := KSend)
  {
    CopyGoes(cfg, t);
    u := CodecGoes(cfg, s, t);
    ReleaseGoes(cfg, u);
    u := CodecGoes(cfg, s, u);
  }

  lemma ForwardsNothing(cfg: Config) returns (t: Stream)
    requires cfg.Valid()
    ensures Sized(cfg, t) && Reaches(cfg, Init(cfg), t) && t.running && !t.error && t.play.PTop? && t.codec.KTop?
    ensures t.mp.refs[0] == 2 && t.mpData[0].size == 0 && t.captured == [NOTHING] && t.since.starts == 1
  {
    t := TakesNothing(cfg);
    t := Claims(cfg, Init(cfg), t);
    t := Forwards(cfg, Init(cfg), t);
    t := Sends(cfg, Init(cfg), t);
  }

  /**
   Every configuration has a run in which the device delivers an empty read and playback leaves on it:
   the stream still runs, and no error flag is up.
   */
  lemma EmptyReadEnds(cfg: Config) returns (u: Stream)
    requires cfg.Valid()
    ensures Reaches(cfg, Init(cfg), u) && u.running && !u.error && u.play.PExit?
    ensures u.captured == [NOTHING] && u.since.starts == 1
  {
    var t := ForwardsNothing(cfg);
    assert t.mp.refs[0] >= 2 && t.mpData[0].size == 0;
    ReachedInv(cfg, t);
    u := PlaybackLeaves(cfg, t);
    ReachesFurther(cfg, Init(cfg), t, u);
  }
}

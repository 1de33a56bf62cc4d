/**
 What the counters and the histories of the pipeline count, told from outside: by what the devices
 delivered and took, and by the pool calls that returned nothing.
 */
module AudioTally {
  import opened AudioStream
  import opened AudioInvariant
  import opened AudioStop
  import opened AudioTheorems
  import opened AudioTrace
  import opened AudioFaults

  // The periods delivered into frames, the frames the playback device took, and the calls of the two
  // acquires that came back empty.
  datatype Tally = Tally(heard: seq<Period>, played: nat, missed: nat, refused: nat)

  function TallyAfter(u: Tally, s: Stream, a: Step, t: Stream): Tally {
    match a
    case Capture(read) =>
      if s.cap.CRead? && read.Got? then u.(heard := u.heard + [read.p])
      else if s.cap.CAcquire? && t.cap.CMiss? then u.(missed := u.missed + 1) else u
    case Codec => if s.codec.KAcquire? && t.codec.KNoRoom? then u.(refused := u.refused + 1) else u
    case Playback(write) => if Writing(s) && write.Wrote? then u.(played := u.played + write.n) else u
    case _ => u
  }

  function TallySoFar(ss: seq<Stream>, steps: seq<Step>, n: nat): Tally
    requires n < |ss| && n <= |steps|
  {
    if n == 0 then Tally([], 0, 0, 0) else TallyAfter(TallySoFar(ss, steps, n - 1), ss[n - 1], steps[n - 1], ss[n])
  }

  function FramesOf(ps: seq<Period>): nat {
    if ps == [] then 0 else FramesOf(ps[..|ps| - 1]) + ps[|ps| - 1].n
  }

  lemma FramesOfSnoc(ps: seq<Period>, p: Period)
    ensures FramesOf(ps + [p]) == FramesOf(ps) + p.n
  {
    assert (ps + [p])[..|ps|] == ps;
  }

  predicate HeardFits(s: Stream, u: Tally) {
    match s.cap
    case CFilled(p) => u.heard == s.captured + [p] && s.capTotal + p.n == FramesOf(u.heard)
    case CCounted(p) => u.heard == s.captured + [p] && s.capTotal == FramesOf(u.heard)
    case _ => u.heard == s.captured && s.capTotal == FramesOf(u.heard)
  }

  predicate TallyFits(s: Stream, u: Tally) {
    && HeardFits(s, u)
    && u.played == s.pbTotal + (if s.play.PWrote? then s.play.n else 0)
    && u.missed == s.misses + (if s.cap.CMiss? then 1 else 0)
    && u.refused == s.codecDrops + (if s.codec.KNoRoom? then 1 else 0)
  }

  // What each of the three threads keeps its own tally in.
  predicate SameCapture(s: Stream, t: Stream) {
    t.cap == s.cap && t.captured == s.captured && t.capTotal == s.capTotal && t.misses == s.misses
  }

  predicate SamePlayback(s: Stream, t: Stream) {
    t.pbTotal == s.pbTotal && t.play == s.play
  }

  predicate SameCodec(s: Stream, t: Stream) {
    t.codecDrops == s.codecDrops && t.codec == s.codec
  }

  lemma CaptureOnly(cfg: Config, s: Stream, read: ReadResult)
    requires CaptureEnabled(cfg, s, read)
    ensures SamePlayback(s, CaptureStep(cfg, s, read)) && SameCodec(s, CaptureStep(cfg, s, read))
  {
  }

  lemma CaptureHeard(cfg: Config, s: Stream, read: ReadResult, u: Tally)
    requires CaptureEnabled(cfg, s, read) && HeardFits(s, u)
    ensures HeardFits(CaptureStep(cfg, s, read), TallyAfter(u, s, Capture(read), CaptureStep(cfg, s, read)))
  {
    if s.cap.CRead? && read.Got? {
      FramesOfSnoc(u.heard, read.p);
    }
  }

  lemma CaptureMissed(cfg: Config, s: Stream, read: ReadResult)
    requires CaptureEnabled(cfg, s, read)
    ensures var t := CaptureStep(cfg, s, read);
            && t.misses == s.misses + (if s.cap.CMiss? then 1 else 0)
            && (t.cap.CMiss? ==> s.cap.CAcquire?)
  {
  }

  lemma CaptureTally(cfg: Config, s: Stream, read: ReadResult, u: Tally)
    requires CaptureEnabled(cfg, s, read) && TallyFits(s, u)
    ensures TallyFits(CaptureStep(cfg, s, read), TallyAfter(u, s, Capture(read), CaptureStep(cfg, s, read)))
  {
    CaptureHeard(cfg, s, read, u);
    CaptureMissed(cfg, s, read);
    CaptureOnly(cfg, s, read);
  }

  lemma OutputOnly(cfg: Config, s: Stream, write: WriteResult)
    requires PlaybackEnabled(cfg, s, write) && s.play.PHold?
    ensures var t := OutputStep(cfg, s, write);
            && SameCapture(s, t) && SameCodec(s, t) && t.pbTotal == s.pbTotal
            && (if Writing(s) && write.Wrote? then t.play == PWrote(write.n) else t.play.PRelease?)
  {
  }

  lemma PlaybackOnly(cfg: Config, s: Stream, write: WriteResult)
    requires PlaybackEnabled(cfg, s, write) && !s.play.PHold?
    ensures var t := PlaybackStep(cfg, s, write);
            && SameCapture(s, t) && SameCodec(s, t) && !t.play.PWrote?
            && t.pbTotal == s.pbTotal + (if s.play.PWrote? then s.play.n else 0)
  {
  }

  lemma PlaybackTally(cfg: Config, s: Stream, write: WriteResult, u: Tally)
    requires PlaybackEnabled(cfg, s, write) && TallyFits(s, u)
    ensures TallyFits(PlaybackStep(cfg, s, write), TallyAfter(u, s, Playback(write), PlaybackStep(cfg, s, write)))
  {
    if s.play.PHold? {
      OutputOnly(cfg, s, write);
    } else {
      PlaybackOnly(cfg, s, write);
    }
  }

  lemma CodecOnly(cfg: Config, s: Stream)
    requires CodecEnabled(cfg, s)
    ensures SameCapture(s, CodecStep(cfg, s)) && SamePlayback(s, CodecStep(cfg, s))
  {
  }

  lemma CodecRefused(cfg: Config, s: Stream)
    requires CodecEnabled(cfg, s)
    ensures var t := CodecStep(cfg, s);
            && t.codecDrops == s.codecDrops + (if s.codec.KNoRoom? then 1 else 0)
            && (t.codec.KNoRoom? ==> s.codec.KAcquire?)
  {
  }

  lemma CodecTally(cfg: Config, s: Stream, u: Tally)
    requires CodecEnabled(cfg, s) && TallyFits(s, u)
    ensures TallyFits(CodecStep(cfg, s), TallyAfter(u, s, Codec, CodecStep(cfg, s)))
  {
    CodecOnly(cfg, s);
    CodecRefused(cfg, s);
    TallyMoves(s, CodecStep(cfg, s), u);
  }

  lemma TallyMoves(s: Stream, t: Stream, u: Tally)
    requires TallyFits(s, u) && SameCapture(s, t) && SamePlayback(s, t)
    requires t.codecDrops == s.codecDrops + (if s.codec.KNoRoom? then 1 else 0) && (t.codec.KNoRoom? ==> s.codec.KAcquire?)
    ensures TallyFits(t, TallyAfter(u, s, Codec, t))
  {
  }

  lemma StepTally(cfg: Config, s: Stream, a: Step, u: Tally)
    requires Enabled(cfg, s, a) && TallyFits(s, u) && (a.Start? ==> s.cap.CExit? && s.codec.KExit? && s.play.PExit?)
    ensures TallyFits(AudioStream.Apply(cfg, s, a), TallyAfter(u, s, a, AudioStream.Apply(cfg, s, a)))
  {
    match a {
      case Capture(read) => CaptureTally(cfg, s, read, u);
      case Codec => CodecTally(cfg, s, u);
      case Playback(write) => PlaybackTally(cfg, s, write, u);
      case Spurious => SameTally(s, SpuriousStep(cfg, s), u);
      case Stop => SameTally(s, StopStep(cfg, s), u);
      case Start => NewTally(s, StartStep(cfg, s), u);
    }
  }

  lemma SameTally(s: Stream, t: Stream, u: Tally)
    requires TallyFits(s, u) && SameCapture(s, t) && SamePlayback(s, t) && SameCodec(s, t)
    ensures TallyFits(t, u)
  {
  }

  lemma NewTally(s: Stream, t: Stream, u: Tally)
    requires TallyFits(s, u) && s.cap.CExit? && s.codec.KExit? && s.play.PExit? && t.cap.CTop? && t.codec.KTop? && t.play.PTop?
    requires t.captured == s.captured && t.capTotal == s.capTotal && t.misses == s.misses
    requires t.pbTotal == s.pbTotal && t.codecDrops == s.codecDrops
    ensures TallyFits(t, u)
  {
  }

  lemma Ended(cfg: Config, s: Stream)
    requires StopInv(cfg, s) && StartEnabled(cfg, s)
    ensures s.cap.CExit? && s.codec.KExit? && s.play.PExit?
  {
  }

  lemma TraceStop(cfg: Config, ss: seq<Stream>, steps: seq<Step>, n: nat)
    requires FromStart(cfg, ss, steps) && n <= |steps|
    ensures StopInv(cfg, ss[n])
  {
    TraceInv(cfg, ss, steps, n);
  }

  lemma StartedAfterExit(cfg: Config, ss: seq<Stream>, steps: seq<Step>, n: nat)
    requires FromStart(cfg, ss, steps) && n < |steps| && steps[n].Start?
    ensures ss[n].cap.CExit? && ss[n].codec.KExit? && ss[n].play.PExit?
  {
    TraceStop(cfg, ss, steps, n);
    Ended(cfg, ss[n]);
  }

  lemma TallyNext(cfg: Config, ss: seq<Stream>, steps: seq<Step>, k: nat, u: Tally)
    requires FromStart(cfg, ss, steps) && k < |steps| && TallyFits(ss[k], u)
    ensures TallyFits(ss[k + 1], TallyAfter(u, ss[k], steps[k], ss[k + 1]))
  {
    if steps[k].Start? {
      StartedAfterExit(cfg, ss, steps, k);
    }
    StepTally(cfg, ss[k], steps[k], u);
  }

  lemma FirstTally(cfg: Config)
    requires cfg.Valid()
    ensures TallyFits(Init(cfg), Tally([], 0, 0, 0))
  {
  }

  lemma {:induction false} TallyKnown(cfg: Config, ss: seq<Stream>, steps: seq<Step>, n: nat)
    requires FromStart(cfg, ss, steps) && n <= |steps|
    ensures TallyFits(ss[n], TallySoFar(ss, steps, n))
    decreases n
  {
    if n == 0 {
      FirstTally(cfg);
    } else {
      TallyKnown(cfg, ss, steps, n - 1);
      TallyNext(cfg, ss, steps, n - 1, TallySoFar(ss, steps, n - 1));
    }
  }

  /**
   Between two rounds of its loop, each thread has counted exactly what happened to it: capture the
   periods delivered into its frames and the acquires that failed, the codec the acquires that failed,
   playback the frames its device took.
   */
  lemma CountedFromOutside(cfg: Config, ss: seq<Stream>, steps: seq<Step>, n: nat)
    requires FromStart(cfg, ss, steps) && n <= |steps|
    ensures var t, u := ss[n], TallySoFar(ss, steps, n);
            && (t.cap.CTop? || t.cap.CExit? ==> t.captured == u.heard && t.capTotal == FramesOf(u.heard) && t.misses == u.missed)
            && (t.codec.KTop? || t.codec.KExit? ==> t.codecDrops == u.refused)
            && (t.play.PTop? || t.play.PExit? ==> t.pbTotal == u.played)
  {
    TallyKnown(cfg, ss, steps, n);
  }
}

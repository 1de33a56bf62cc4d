/**
 What raises the error flag: exactly a device error, or more than ten xruns in a row, since the last start.
 Fewer xruns are recovered from.
 */
module AudioFaults {
  import opened AudioStream
  import opened AudioInvariant
  import opened AudioStop
  import opened AudioTheorems
  import opened AudioTrace
  import S = SpRing
  import M = MpPool

  // What the devices have answered since the last start: whether an error, and how many xruns in a row.
  datatype Faults = Faults(readError: bool, readXruns: nat, writeError: bool, writeXruns: nat)

  const NONE: Faults := Faults(false, 0, false, 0)

  // A read that is thrown away forgets the xruns before it, unless it is the eleventh itself.
  function ReadFaults(u: Faults, cap: AudioStream.Capture, read: ReadResult): Faults {
    if cap.CRead? then
      match read
      case Got(_) => u.(readXruns := 0)
      case ReadXrun => u.(readXruns := u.readXruns + 1)
      case ReadError => u.(readError := true)
    else if cap.CDiscard? then u.(readXruns := if read.ReadXrun? && u.readXruns == 10 then 11 else 0)
    else u
  }

  function WriteFaults(u: Faults, write: WriteResult): Faults {
    match write
    case Wrote(_) => u.(writeXruns := 0)
    case WriteXrun => u.(writeXruns := u.writeXruns + 1)
    case WriteError => u.(writeError := true)
  }

  // Playback is about to write: it holds a frame that is not empty.
  predicate Writing(s: Stream) {
    s.play.PHold? && s.mp.cons.Holding? && s.mp.cons.f < |s.mpData| && s.mpData[s.mp.cons.f].size != 0
  }

  function FaultsAfter(u: Faults, s: Stream, a: Step): Faults {
    match a
    case Capture(read) => ReadFaults(u, s.cap, read)
    case Playback(write) => if Writing(s) then WriteFaults(u, write) else u
    case Start => NONE
    case _ => u
  }

  function FaultsSoFar(ss: seq<Stream>, steps: seq<Step>, n: nat): Faults
    requires n < |ss| && n <= |steps|
  {
    if n == 0 then NONE else FaultsAfter(FaultsSoFar(ss, steps, n - 1), ss[n - 1], steps[n - 1])
  }

  predicate ReadFatal(u: Faults) {
    u.readError || u.readXruns > 10
  }

  predicate WriteFatal(u: Faults) {
    u.writeError || u.writeXruns > 10
  }

  // Between a read that failed and what follows from it
  predicate CaptureFits(s: Stream, u: Faults) {
    match s.cap
    case CFail(device) => u.readError == device && (!device ==> u.readXruns == s.capXruns + 1) && s.capXruns <= 10
    case CExit => !s.running || ReadFatal(u)
    case _ => !u.readError && u.readXruns == s.capXruns <= 10
  }

  predicate PlaybackFits(s: Stream, u: Faults) {
    && u.writeXruns == s.playXruns
    && (WriteFatal(u) ==> s.play.PExit? || (s.play.PRelease? && s.play.last))
  }

  predicate FlagFits(s: Stream, u: Faults) {
    s.error <==> (s.cap.CExit? && ReadFatal(u)) || WriteFatal(u)
  }

  predicate FaultsFit(s: Stream, u: Faults) {
    CaptureFits(s, u) && PlaybackFits(s, u) && FlagFits(s, u)
  }

  lemma CaptureFaults(cfg: Config, s: Stream, read: ReadResult, u: Faults)
    requires CaptureEnabled(cfg, s, read) && FaultsFit(s, u)
    ensures FaultsFit(CaptureStep(cfg, s, read), ReadFaults(u, s.cap, read))
  {
  }

  lemma OutputFaults(cfg: Config, s: Stream, write: WriteResult, u: Faults)
    requires PlaybackEnabled(cfg, s, write) && s.play.PHold? && FaultsFit(s, u)
    ensures FaultsFit(OutputStep(cfg, s, write), if Writing(s) then WriteFaults(u, write) else u)
  {
  }

  lemma PlaybackQuiet(cfg: Config, s: Stream, write: WriteResult)
    requires PlaybackEnabled(cfg, s, write) && !s.play.PHold?
    ensures var t := PlaybackStep(cfg, s, write);
            && t.cap == s.cap && t.capXruns == s.capXruns && t.running == s.running && t.error == s.error
            && t.playXruns == s.playXruns && (s.play.PRelease? && s.play.last ==> t.play.PExit?) && !s.play.PExit?
  {
  }

  lemma PlaybackFaults(cfg: Config, s: Stream, write: WriteResult, u: Faults)
    requires PlaybackEnabled(cfg, s, write) && FaultsFit(s, u)
    ensures FaultsFit(PlaybackStep(cfg, s, write), if Writing(s) then WriteFaults(u, write) else u)
  {
    if s.play.PHold? {
      OutputFaults(cfg, s, write, u);
    } else {
      PlaybackQuiet(cfg, s, write);
    }
  }

  lemma CodecQuiet(cfg: Config, s: Stream)
    requires CodecEnabled(cfg, s)
    ensures var t := CodecStep(cfg, s);
            && t.cap == s.cap && t.capXruns == s.capXruns && t.running == s.running && t.error == s.error
            && t.playXruns == s.playXruns && t.play == s.play
  {
  }

  lemma CodecFaults(cfg: Config, s: Stream, u: Faults)
    requires CodecEnabled(cfg, s) && FaultsFit(s, u)
    ensures FaultsFit(CodecStep(cfg, s), u)
  {
    CodecQuiet(cfg, s);
  }

  lemma StepFaults(cfg: Config, s: Stream, a: Step, u: Faults)
    requires Enabled(cfg, s, a) && FaultsFit(s, u)
    ensures FaultsFit(AudioStream.Apply(cfg, s, a), FaultsAfter(u, s, a))
  {
    match a {
      case Capture(read) => CaptureFaults(cfg, s, read, u);
      case Codec => CodecFaults(cfg, s, u);
      case Playback(write) => PlaybackFaults(cfg, s, write, u);
      case Spurious =>
      case Stop =>
      case Start =>
    }
  }

  lemma {:induction false} FaultsKnown(cfg: Config, ss: seq<Stream>, steps: seq<Step>, n: nat)
    requires FromStart(cfg, ss, steps) && n <= |steps|
    ensures FaultsFit(ss[n], FaultsSoFar(ss, steps, n))
    decreases n
  {
    if n > 0 {
      FaultsKnown(cfg, ss, steps, n - 1);
      StepFaults(cfg, ss[n - 1], steps[n - 1], FaultsSoFar(ss, steps, n - 1));
    }
  }

  /**
   The error flag is up exactly when a device error or more than ten xruns in a row have ended
   capture or playback since the last start; and while the stream runs, nothing else ends capture.
   */
  lemma FlagMeansFault(cfg: Config, ss: seq<Stream>, steps: seq<Step>, n: nat)
    requires FromStart(cfg, ss, steps) && n <= |steps|
    ensures var t, u := ss[n], FaultsSoFar(ss, steps, n);
            && (t.error <==> (t.cap.CExit? && ReadFatal(u)) || WriteFatal(u))
            && (t.running && !t.cap.CFail? ==> (t.cap.CExit? <==> ReadFatal(u)))
            && (WriteFatal(u) ==> t.play.PExit? || t.play == PRelease(true))
  {
    FaultsKnown(cfg, ss, steps, n);
  }

  /** One of up to ten xruns in a row frees the frame and goes back to the loop; nothing else changes. */
  lemma ReadXrunRecovers(cfg: Config, ss: seq<Stream>, steps: seq<Step>, n: nat)
    requires FromStart(cfg, ss, steps) && n < |steps|
    requires ss[n].cap == CFail(false) && steps[n].Capture? && FaultsSoFar(ss, steps, n).readXruns <= 10
    ensures var s, t := ss[n], ss[n + 1];
            && t.cap.CTop? && t.error == s.error && t.running == s.running && t.captured == s.captured
            && t.sp.prod.PIdle? && t.sp.w == s.sp.w && t.sp.Count() == s.sp.Count() > 0
            && t.sp.refs == s.sp.refs[s.sp.Slot(s.sp.w) := 0]
  {
    FaultsKnown(cfg, ss, steps, n);
  }

  /** Likewise in playback: the frame is given back and the loop goes on. */
  lemma WriteXrunRecovers(cfg: Config, ss: seq<Stream>, steps: seq<Step>, n: nat)
    requires FromStart(cfg, ss, steps) && n < |steps| && Writing(ss[n]) && steps[n] == Playback(WriteXrun)
    requires FaultsSoFar(ss, steps, n + 1).writeXruns <= 10
    ensures ss[n + 1].play == PRelease(false) && ss[n + 1].error == ss[n].error && ss[n + 1].mp == ss[n].mp
    ensures PlaybackEnabled(cfg, ss[n + 1], Wrote(0)) && PlaybackStep(cfg, ss[n + 1], Wrote(0)).play.PTop?
    ensures PlaybackStep(cfg, ss[n + 1], Wrote(0)).mp == M.Apply(ss[n].mp, M.Release)
  {
    FaultsKnown(cfg, ss, steps, n);
    FaultsKnown(cfg, ss, steps, n + 1);
  }
}

/**
 What a stopping codec leaves in the ring: nothing that had been committed when it looked for the last time.
 */
module AudioDrain {
  import opened AudioStream
  import opened AudioInvariant
  import opened AudioStop
  import opened AudioTheorems
  import opened AudioTrace
  import S = SpRing
  import M = MpPool

  // Behind the drain loop
  predicate PastDrain(k: AudioStream.Codec) {
    k.KProbe? || k.KZero? || k.KSendLast? || k.KExit?
  }

  // The drain loop is over, or is going to be: its dequeue has loaded a write index that leaves nothing to take.
  predicate Emptied(s: Stream) {
    PastDrain(s.codec) || (s.codec.KDrain? && s.sp.cons == S.CSawW(s.sp.r))
  }

  // During the drain of this run the ring was empty, and the codec has taken nothing since.
  ghost predicate SeenEmpty(ss: seq<Stream>, n: nat)
    requires n < |ss|
  {
    exists j :: 0 <= j <= n && ss[j].codec.KDrain? && ss[j].since == ss[n].since && ss[j].sp.w == ss[j].sp.r == ss[n].sp.r
  }

  predicate EmptiesOn(s: Stream, t: Stream) {
    Emptied(t) ==> t.since == s.since && t.sp.r == s.sp.r && (Emptied(s) || (s.codec.KDrain? && s.sp.w == s.sp.r))
  }

  lemma DrainEmpties(cfg: Config, s: Stream)
    requires CodecEnabled(cfg, s) && s.codec.KDrain? && S.Inv(s.sp) && S.SingleHolder(s.sp)
    ensures EmptiesOn(s, CodecStep(cfg, s))
  {
    if s.sp.cons.CSawW? {
      S.TakeRefusal(s.sp);
    }
  }

  lemma TakingEmpties(cfg: Config, s: Stream)
    requires CodecEnabled(cfg, s) && CodecLink(s) && (Taking(s.codec) || Forwarding(s.codec) || s.codec.KDrained?)
    ensures !Emptied(CodecStep(cfg, s))
  {
  }

  lemma LastEmpties(cfg: Config, s: Stream)
    requires CodecEnabled(cfg, s) && PastDrain(s.codec)
    ensures EmptiesOn(s, CodecStep(cfg, s))
  {
  }

  lemma CodecEmpties(cfg: Config, s: Stream)
    requires PoolsInv(cfg, s) && CodecEnabled(cfg, s)
    ensures EmptiesOn(s, CodecStep(cfg, s))
  {
    if s.codec.KDrain? {
      DrainEmpties(cfg, s);
    } else if PastDrain(s.codec) {
      LastEmpties(cfg, s);
    } else {
      TakingEmpties(cfg, s);
    }
  }

  lemma CaptureEmpties(cfg: Config, s: Stream, read: ReadResult)
    requires CaptureEnabled(cfg, s, read)
    ensures EmptiesOn(s, CaptureStep(cfg, s, read))
  {
  }

  lemma PlaybackEmpties(cfg: Config, s: Stream, write: WriteResult)
    requires PlaybackEnabled(cfg, s, write)
    ensures EmptiesOn(s, PlaybackStep(cfg, s, write))
  {
  }

  lemma StepEmpties(cfg: Config, s: Stream, a: Step)
    requires PoolsInv(cfg, s) && Enabled(cfg, s, a)
    ensures EmptiesOn(s, AudioStream.Apply(cfg, s, a))
  {
    match a {
      case Capture(read) => CaptureEmpties(cfg, s, read);
      case Codec => CodecEmpties(cfg, s);
      case Playback(write) => PlaybackEmpties(cfg, s, write);
      case Spurious =>
      case Stop =>
      case Start =>
    }
  }

  lemma SeenStays(ss: seq<Stream>, n: nat)
    requires n + 1 < |ss| && SeenEmpty(ss, n) && ss[n + 1].since == ss[n].since && ss[n + 1].sp.r == ss[n].sp.r
    ensures SeenEmpty(ss, n + 1)
  {
    var j :| 0 <= j <= n && ss[j].codec.KDrain? && ss[j].since == ss[n].since && ss[j].sp.w == ss[j].sp.r == ss[n].sp.r;
    assert ss[j].since == ss[n + 1].since && ss[j].sp.r == ss[n + 1].sp.r;
  }

  ghost predicate AllEmptyOn(ss: seq<Stream>) {
    ss != [] && !Emptied(ss[0]) && forall k :: 0 <= k < |ss| - 1 ==> EmptiesOn(ss[k], ss[k + 1])
  }

  lemma {:induction false} SeenSoFar(ss: seq<Stream>, n: nat)
    requires AllEmptyOn(ss) && n < |ss| && Emptied(ss[n])
    ensures SeenEmpty(ss, n)
    decreases n
  {
    if n > 0 {
      assert EmptiesOn(ss[n - 1], ss[n - 1 + 1]);
      if Emptied(ss[n - 1]) {
        SeenSoFar(ss, n - 1);
        SeenStays(ss, n - 1);
      } else {
        assert ss[n - 1].codec.KDrain? && ss[n - 1].since == ss[n].since && ss[n - 1].sp.w == ss[n - 1].sp.r == ss[n].sp.r;
      }
    }
  }

  lemma TracePools(cfg: Config, ss: seq<Stream>, steps: seq<Step>, n: nat)
    requires FromStart(cfg, ss, steps) && n <= |steps|
    ensures PoolsInv(cfg, ss[n])
  {
    TraceInv(cfg, ss, steps, n);
  }

  lemma TraceEmpties(cfg: Config, ss: seq<Stream>, steps: seq<Step>)
    requires FromStart(cfg, ss, steps)
    ensures AllEmptyOn(ss)
  {
    forall k | 0 <= k < |steps| ensures EmptiesOn(ss[k], ss[k + 1]) {
      TracePools(cfg, ss, steps, k);
      StepEmpties(cfg, ss[k], steps[k]);
    }
  }

  /**
   Once the codec has left its drain loop, every period committed up to some moment of that loop has left
   the ring: the read index is what the write index was then. What capture commits later stays.
   */
  lemma DrainLeavesNothing(cfg: Config, ss: seq<Stream>, steps: seq<Step>, n: nat)
    requires FromStart(cfg, ss, steps) && n <= |steps|
    ensures PastDrain(ss[n].codec) ==> SeenEmpty(ss, n)
  {
    TraceEmpties(cfg, ss, steps);
    if PastDrain(ss[n].codec) {
      SeenSoFar(ss, n);
    }
  }
}

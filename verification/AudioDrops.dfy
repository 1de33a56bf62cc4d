/**
 When the codec thread drops a period: only after it has found every frame of the second pool in use,
 one by one, each published or in playback's hands at that moment.
 */
module AudioDrops {
  import opened AudioStream
  import opened AudioInvariant
  import opened AudioStop
  import opened AudioTheorems
  import opened AudioTrace
  import M = MpPool

  // The codec is looking for a frame, or has just looked in vain.
  predicate Looking(s: Stream) {
    |s.mp.prods| == 1 && (s.mp.prods[0].Probing? || s.codec.KNoRoom?)
  }

  // Published, or taken by playback.
  predicate InUse(p: M.Pool, i: nat) {
    i < p.Count() && p.refs[i] >= 2 && (i in M.Ready(p) || p.Held(i))
  }

  // At some state since the codec began to look, it looked at frame i and that was in use.
  ghost predicate FoundInUse(ss: seq<Stream>, n: nat, i: nat)
    requires n < |ss|
  {
    exists k :: 0 <= k < n && ss[k].mp.prods == [M.Probing(i)] && InUse(ss[k].mp, i) && forall m :: k <= m <= n ==> Looking(ss[m])
  }

  // How many frames the codec has looked at since it began to look.
  function Looked(s: Stream): nat {
    if |s.mp.prods| == 1 && s.mp.prods[0].Probing? then s.mp.prods[0].i
    else if s.codec.KNoRoom? then s.mp.Count() else 0
  }

  // Between two states the codec has gone on by one frame at most, and only past one in use.
  predicate LooksOn(s: Stream, t: Stream) {
    Looked(t) > 0 ==>
      && Looking(s) && Looking(t) && t.mp.Count() == s.mp.Count()
      && (Looked(t) <= Looked(s) ||
          (Looked(t) == Looked(s) + 1 && s.mp.prods == [M.Probing(Looked(s))] && InUse(s.mp, Looked(s))))
  }

  lemma ProbedInUse(p: M.Pool, i: nat)
    requires M.Inv(p) && p.prods == [M.Probing(i)] && i < p.Count() && p.refs[i] != 0
    ensures InUse(p, i)
  {
    assert M.Ownership(p);
    assert forall q :: 0 <= q < |p.prods| ==> p.prods[q] == M.Probing(i);
  }

  // One step of an acquire: it goes on exactly past a frame in use.
  lemma ClaimLooks(p: M.Pool)
    requires M.Inv(p) && |p.prods| == 1 && (p.prods[0].Idle? || p.prods[0].Probing?) && M.Enabled(p, ClaimStep(p))
    ensures var q := M.Apply(p, ClaimStep(p));
            && q.Count() == p.Count() && |q.prods| == 1
            && (p.prods[0].Idle? ==> q.prods == [M.Probing(0)])
            && (p.prods[0].Probing? && p.prods[0].i >= p.Count() ==> q.prods == [M.Idle])
            && (p.prods[0].Probing? && p.prods[0].i < p.Count() ==>
                  var i := p.prods[0].i;
                  if p.refs[i] == 0 then q.prods == [M.Owns(i)] else q.prods == [M.Probing(i + 1)] && InUse(p, i))
  {
    assert forall x :: p.prods[0 := x] == [x];
    assert p.prods == [p.prods[0]];
    if p.prods[0].Probing? && p.prods[0].i < p.Count() && p.refs[p.prods[0].i] != 0 {
      ProbedInUse(p, p.prods[0].i);
    }
  }

  lemma AcquireLooks(cfg: Config, s: Stream)
    requires CodecEnabled(cfg, s) && M.Inv(s.mp) && CodecLink(s) && (s.codec.KAcquire? || s.codec.KProbe?)
    ensures LooksOn(s, CodecStep(cfg, s))
  {
    ClaimLooks(s.mp);
  }

  lemma OtherwiseBusy(cfg: Config, s: Stream)
    requires CodecEnabled(cfg, s) && CodecLink(s) && !s.codec.KAcquire? && !s.codec.KProbe?
    ensures Looked(CodecStep(cfg, s)) == 0
  {
  }

  lemma SameLook(cfg: Config, s: Stream, t: Stream)
    requires Sized(cfg, s) && Sized(cfg, t) && t.mp.prods == s.mp.prods && t.codec == s.codec
    ensures LooksOn(s, t)
  {
  }

  lemma SpuriousLooks(cfg: Config, s: Stream)
    requires SpuriousEnabled(cfg, s)
    ensures LooksOn(s, SpuriousStep(cfg, s))
  {
    SameLook(cfg, s, SpuriousStep(cfg, s));
  }

  lemma StopLooks(cfg: Config, s: Stream)
    requires StopEnabled(cfg, s)
    ensures LooksOn(s, StopStep(cfg, s))
  {
    SameLook(cfg, s, StopStep(cfg, s));
  }

  lemma StartLooks(cfg: Config, s: Stream)
    requires StartEnabled(cfg, s) && CodecLink(s) && s.codec.KExit?
    ensures Looked(StartStep(cfg, s)) == 0
  {
  }

  lemma StepLooks(cfg: Config, s: Stream, a: Step)
    requires PoolsInv(cfg, s) && StopInv(cfg, s) && Enabled(cfg, s, a)
    ensures LooksOn(s, AudioStream.Apply(cfg, s, a))
  {
    match a {
      case Capture(read) =>
        CaptureAside(cfg, s, read);
        SameLook(cfg, s, CaptureStep(cfg, s, read));
      case Codec =>
        if s.codec.KAcquire? || s.codec.KProbe? {
          AcquireLooks(cfg, s);
        } else {
          OtherwiseBusy(cfg, s);
        }
      case Playback(write) =>
        PlaybackAside(cfg, s, write);
        SameLook(cfg, s, PlaybackStep(cfg, s, write));
      case Spurious => SpuriousLooks(cfg, s);
      case Stop => StopLooks(cfg, s);
      case Start => StartLooks(cfg, s);
    }
  }

  lemma FoundStays(ss: seq<Stream>, n: nat, i: nat)
    requires n + 1 < |ss| && FoundInUse(ss, n, i) && Looking(ss[n + 1])
    ensures FoundInUse(ss, n + 1, i)
  {
    var k :| 0 <= k < n && ss[k].mp.prods == [M.Probing(i)] && InUse(ss[k].mp, i) && forall m :: k <= m <= n ==> Looking(ss[m]);
    assert forall m :: k <= m <= n + 1 ==> Looking(ss[m]);
  }

  lemma FoundNow(ss: seq<Stream>, n: nat, i: nat)
    requires n + 1 < |ss| && ss[n].mp.prods == [M.Probing(i)] && InUse(ss[n].mp, i) && Looking(ss[n]) && Looking(ss[n + 1])
    ensures FoundInUse(ss, n + 1, i)
  {
  }

  ghost predicate AllLookOn(ss: seq<Stream>) {
    ss != [] && Looked(ss[0]) == 0 && forall k :: 0 <= k < |ss| - 1 ==> LooksOn(ss[k], ss[k + 1])
  }

  lemma {:induction false} FoundSoFar(ss: seq<Stream>, n: nat, i: nat)
    requires AllLookOn(ss) && n < |ss| && i < Looked(ss[n])
    ensures FoundInUse(ss, n, i)
    decreases n
  {
    if n > 0 {
      assert LooksOn(ss[n - 1], ss[n - 1 + 1]);
      if i < Looked(ss[n - 1]) {
        FoundSoFar(ss, n - 1, i);
        FoundStays(ss, n - 1, i);
      } else {
        FoundNow(ss, n - 1, i);
      }
    }
  }

  lemma TraceLooksOn(cfg: Config, ss: seq<Stream>, steps: seq<Step>)
    requires FromStart(cfg, ss, steps)
    ensures AllLookOn(ss)
  {
    forall k | 0 <= k < |steps| ensures LooksOn(ss[k], ss[k + 1]) {
      TraceInv(cfg, ss, steps, k);
      StepLooks(cfg, ss[k], steps[k]);
    }
  }

  lemma SizeKnown(cfg: Config, ss: seq<Stream>, steps: seq<Step>, n: nat)
    requires FromStart(cfg, ss, steps) && n <= |steps|
    ensures ss[n].mp.Count() == cfg.poolFrames && |ss[n].mp.prods| == 1
    ensures ss[n].codec.KNoRoom? ==> ss[n].mp.prods[0].Idle?
  {
    TraceInv(cfg, ss, steps, n);
  }

  // The codec has found no frame, and is about to act on it or has dropped its period.
  predicate LookedInVain(s: Stream) {
    || s.codec.KNoRoom?
    || (|s.mp.prods| == 1 && s.mp.prods[0].Probing? && s.mp.prods[0].i >= s.mp.Count())
  }

  /**
   The codec drops a period for want of room, and gives up an attempt to post the sentinel, only after
   it has looked at every frame of the pool and found it published or in playback's hands.
   */
  lemma NoRoomMeansBusy(cfg: Config, ss: seq<Stream>, steps: seq<Step>, n: nat, i: nat)
    requires FromStart(cfg, ss, steps) && n <= |steps| && i < cfg.poolFrames
    ensures LookedInVain(ss[n]) ==> FoundInUse(ss, n, i)
  {
    if LookedInVain(ss[n]) {
      SizeKnown(cfg, ss, steps, n);
      TraceLooksOn(cfg, ss, steps);
      FoundSoFar(ss, n, i);
    }
  }

  // ---- Attempts to post the sentinel ----

  // Attempts since the last start that ended without a frame, and whether one got a frame.
  datatype Tries = Tries(failed: nat, posted: bool)

  function TriesAfter(u: Tries, s: Stream, a: Step): Tries {
    if a.Start? then Tries(0, false)
    else if !a.Codec? then u
    else if s.codec.KProbe? && LookedInVain(s) then u.(failed := u.failed + 1)
    else if s.codec.KZero? then u.(posted := true)
    else u
  }

  function TriesSoFar(ss: seq<Stream>, steps: seq<Step>, n: nat): Tries
    requires n < |ss| && n <= |steps|
  {
    if n == 0 then Tries(0, false) else TriesAfter(TriesSoFar(ss, steps, n - 1), ss[n - 1], steps[n - 1])
  }

  predicate TriesFit(k: AudioStream.Codec, u: Tries) {
    match k
    case KProbe(retry) => u == Tries(retry, false) && retry < 100
    case KZero => u.failed < 100 && !u.posted
    case KSendLast => u.failed < 100 && u.posted
    case KExit => if u.posted then u.failed < 100 else u.failed == 100
    case _ => u == Tries(0, false)
  }

  lemma ProbeTries(cfg: Config, s: Stream, u: Tries)
    requires CodecEnabled(cfg, s) && M.Inv(s.mp) && CodecLink(s) && (s.codec.KAcquire? || s.codec.KProbe?) && TriesFit(s.codec, u)
    ensures TriesFit(CodecStep(cfg, s).codec, TriesAfter(u, s, Codec))
  {
    ClaimLooks(s.mp);
  }

  lemma OtherTries(cfg: Config, s: Stream, u: Tries)
    requires CodecEnabled(cfg, s) && !s.codec.KAcquire? && !s.codec.KProbe? && TriesFit(s.codec, u)
    ensures TriesFit(CodecStep(cfg, s).codec, TriesAfter(u, s, Codec))
  {
  }

  lemma StepTries(cfg: Config, s: Stream, a: Step, u: Tries)
    requires PoolsInv(cfg, s) && Enabled(cfg, s, a) && TriesFit(s.codec, u)
    ensures TriesFit(AudioStream.Apply(cfg, s, a).codec, TriesAfter(u, s, a))
  {
    match a {
      case Capture(read) => CaptureAside(cfg, s, read);
      case Codec =>
        if s.codec.KAcquire? || s.codec.KProbe? {
          ProbeTries(cfg, s, u);
        } else {
          OtherTries(cfg, s, u);
        }
      case Playback(write) => PlaybackAside(cfg, s, write);
      case Spurious =>
      case Stop =>
      case Start =>
    }
  }

  /** The stopping codec leaves without posting the sentinel exactly when a hundred attempts have found no frame. */
  lemma {:induction false} SentinelTries(cfg: Config, ss: seq<Stream>, steps: seq<Step>, n: nat)
    requires FromStart(cfg, ss, steps) && n <= |steps|
    ensures TriesFit(ss[n].codec, TriesSoFar(ss, steps, n))
    ensures ss[n].codec.KExit? ==> (!TriesSoFar(ss, steps, n).posted <==> TriesSoFar(ss, steps, n).failed == 100)
    decreases n
  {
    if n > 0 {
      SentinelTries(cfg, ss, steps, n - 1);
      TraceInv(cfg, ss, steps, n - 1);
      StepTries(cfg, ss[n - 1], steps[n - 1], TriesSoFar(ss, steps, n - 1));
    }
  }
}

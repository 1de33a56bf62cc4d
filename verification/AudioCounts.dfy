/**
 The statistics of the stream: captured, played and dropped frames, and where every committed
 period went.
 */
module AudioCounts {
  import opened AudioStream
  import opened AudioInvariant
  import opened AudioIntegrity
  import opened AudioOnce

  function Sum(xs: seq<nat>): nat {
    if xs == [] then 0 else Sum(xs[..|xs| - 1]) + xs[|xs| - 1]
  }

  function FrameCounts(periods: seq<Period>): (r: seq<nat>)
    ensures |r| == |periods| && forall i :: 0 <= i < |r| ==> r[i] == periods[i].n
  {
    seq(|periods|, i requires 0 <= i < |periods| => periods[i].n)
  }

  lemma {:induction false} SumUpdate(xs: seq<nat>, k: nat, v: nat)
    requires k < |xs|
    ensures Sum(xs[k := v]) == Sum(xs) - xs[k] + v
  {
    var m, ys := |xs| - 1, xs[k := v];
    if k == m {
      assert ys[..m] == xs[..m];
    } else {
      SumUpdate(xs[..m], k, v);
      assert ys[..m] == xs[..m][k := v];
    }
  }

  lemma {:induction false} SumMonotone(xs: seq<nat>, ys: seq<nat>)
    requires |xs| == |ys| && forall i :: 0 <= i < |xs| ==> xs[i] <= ys[i]
    ensures Sum(xs) <= Sum(ys)
  {
    if xs != [] {
      SumMonotone(xs[..|xs| - 1], ys[..|ys| - 1]);
    }
  }

  lemma SumPush(xs: seq<nat>, x: nat)
    ensures Sum(xs + [x]) == Sum(xs) + x
  {
    assert (xs + [x])[..|xs|] == xs;
  }

  // ---- Captured and dropped ----

  function Uncommitted(s: Stream): nat {
    if s.cap.CCounted? then s.cap.p.n else 0
  }

  ghost predicate CapturedInv(s: Stream) {
    && s.capTotal == Sum(FrameCounts(s.captured)) + Uncommitted(s)
    && s.since.cap <= s.capTotal && s.capFrames == (s.capTotal - s.since.cap) % U32
  }

  // What adding `period` `drops` times leaves in a 32-bit counter.
  function Wrapped(period: nat, drops: nat): nat {
    if drops == 0 then 0 else (Wrapped(period, drops - 1) + period) % U32
  }

  lemma WrappedAdd(a: nat, b: nat)
    ensures (a % U32 + b) % U32 == (a + b) % U32
  {
  }

  lemma {:induction false} WrappedIsProduct(period: nat, drops: nat)
    ensures Wrapped(period, drops) == period * drops % U32
  {
    if drops > 0 {
      WrappedIsProduct(period, drops - 1);
      WrappedAdd(period * (drops - 1), period);
      assert period * (drops - 1) + period == period * drops;
    }
  }

  ghost predicate DroppedInv(cfg: Config, s: Stream) {
    s.since.drops <= s.misses + s.codecDrops && s.dropFrames == Wrapped(cfg.period, s.misses + s.codecDrops - s.since.drops)
  }

  // The codec holds a dequeued period that is not counted as dropped, drained or forwarded yet.
  function Pending(s: Stream): nat {
    if HoldsRing(s.codec) && !s.codec.KDropped? then 1 else 0
  }

  ghost predicate FateInv(s: Stream) {
    s.sp.r == s.codecDrops + s.drained + s.forwarded + Pending(s)
  }

  // ---- Played ----

  function Uncounted(s: Stream): nat {
    if s.play.PWrote? then s.play.n else 0
  }

  ghost predicate PlayedInv(s: Stream)
    requires |s.playedBy| == |s.captured|
  {
    && (forall k :: 0 <= k < |s.captured| ==> s.playedBy[k] <= s.captured[k].n)
    && (forall k :: 0 <= k < |s.captured| && s.playedBy[k] != 0 ==> exists j :: 0 <= j < |s.given| && s.given[j].origin == k)
    && s.pbTotal + Uncounted(s) == Sum(s.playedBy)
    && s.since.pb <= s.pbTotal && s.pbFrames == (s.pbTotal - s.since.pb) % U32
  }

  ghost predicate CountInv(cfg: Config, s: Stream) {
    Sized(cfg, s) && CapturedInv(s) && DroppedInv(cfg, s) && FateInv(s) && PlayedInv(s)
  }

  lemma InitCounts(cfg: Config)
    requires cfg.Valid()
    ensures CountInv(cfg, Init(cfg))
  {
  }

  // Nothing that the counters speak about changed.
  ghost predicate SameCounts(s: Stream, t: Stream) {
    && t.since == s.since && t.captured == s.captured && t.capTotal == s.capTotal && t.capFrames == s.capFrames
    && t.dropFrames == s.dropFrames && t.misses == s.misses && t.codecDrops == s.codecDrops
    && t.drained == s.drained && t.forwarded == s.forwarded && t.sp.r - Pending(t) == s.sp.r - Pending(s)
    && t.playedBy == s.playedBy && t.pbTotal == s.pbTotal && t.pbFrames == s.pbFrames && s.given <= t.given
    && Uncommitted(t) == Uncommitted(s) && Uncounted(t) == Uncounted(s)
  }

  lemma Uncounting(cfg: Config, s: Stream, t: Stream)
    requires CountInv(cfg, s) && Sized(cfg, t) && SameCounts(s, t)
    ensures CountInv(cfg, t)
  {
    forall k | 0 <= k < |t.captured| && t.playedBy[k] != 0
      ensures exists j :: 0 <= j < |t.given| && t.given[j].origin == k {
      var j :| 0 <= j < |s.given| && s.given[j].origin == k;
      assert t.given[j].origin == k;
    }
  }

  // A step that moves totals but neither the periods nor who played them.
  lemma SamePlayers(cfg: Config, s: Stream, t: Stream)
    requires CountInv(cfg, s) && Sized(cfg, t)
    requires t.captured == s.captured && t.playedBy == s.playedBy && t.given == s.given
    requires t.pbTotal + Uncounted(t) == s.pbTotal + Uncounted(s)
    requires t.since.pb <= t.pbTotal && t.pbFrames == (t.pbTotal - t.since.pb) % U32
    ensures PlayedInv(t)
  {
  }

  lemma CaptureKeepsCounts(cfg: Config, s: Stream, read: ReadResult)
    requires CaptureEnabled(cfg, s, read) && CountInv(cfg, s)
    ensures CountInv(cfg, CaptureStep(cfg, s, read))
  {
    if s.cap.CMiss? {
      MissKeepsCounts(cfg, s, read);
    } else if s.cap.CFilled? {
      FilledKeepsCounts(cfg, s, read);
    } else if s.cap.CCounted? {
      CommitKeepsCounts(cfg, s, read);
    } else {
      CaptureUncounting(cfg, s, read);
      Uncounting(cfg, s, CaptureStep(cfg, s, read));
    }
  }

  lemma CaptureUncounting(cfg: Config, s: Stream, read: ReadResult)
    requires CaptureEnabled(cfg, s, read) && !s.cap.CMiss? && !s.cap.CFilled? && !s.cap.CCounted?
    ensures Sized(cfg, CaptureStep(cfg, s, read)) && SameCounts(s, CaptureStep(cfg, s, read))
  {
  }

  lemma MissKeepsCounts(cfg: Config, s: Stream, read: ReadResult)
    requires CaptureEnabled(cfg, s, read) && CountInv(cfg, s) && s.cap.CMiss?
    ensures CountInv(cfg, CaptureStep(cfg, s, read))
  {
    SamePlayers(cfg, s, CaptureStep(cfg, s, read));
  }

  lemma FilledMoves(cfg: Config, s: Stream, read: ReadResult)
    requires CaptureEnabled(cfg, s, read) && s.cap.CFilled?
    ensures var t := CaptureStep(cfg, s, read);
            && Sized(cfg, t) && t == s.(sp := t.sp, capFrames := t.capFrames, capTotal := t.capTotal, cap := CCounted(s.cap.p))
            && t.sp.r == s.sp.r && t.capTotal == s.capTotal + s.cap.p.n && t.capFrames == (s.capFrames + s.cap.p.n) % U32
  {
  }

  lemma FilledKeepsCounts(cfg: Config, s: Stream, read: ReadResult)
    requires CaptureEnabled(cfg, s, read) && CountInv(cfg, s) && s.cap.CFilled?
    ensures CountInv(cfg, CaptureStep(cfg, s, read))
  {
    FilledMoves(cfg, s, read);
    WrappedAdd(s.capTotal - s.since.cap, s.cap.p.n);
    SamePlayers(cfg, s, CaptureStep(cfg, s, read));
  }

  lemma CommitKeepsCounts(cfg: Config, s: Stream, read: ReadResult)
    requires CaptureEnabled(cfg, s, read) && CountInv(cfg, s) && s.cap.CCounted?
    ensures CountInv(cfg, CaptureStep(cfg, s, read))
  {
    SumPush(s.playedBy, 0);
    CountsPush(s.captured, s.cap.p);
  }

  lemma CountsPush(periods: seq<Period>, p: Period)
    ensures Sum(FrameCounts(periods + [p])) == Sum(FrameCounts(periods)) + p.n
  {
    SumPush(FrameCounts(periods), p.n);
    assert FrameCounts(periods + [p]) == FrameCounts(periods) + [p.n];
  }

  lemma CodecKeepsCounts(cfg: Config, s: Stream)
    requires CodecEnabled(cfg, s) && CountInv(cfg, s) && Links(s)
    ensures CountInv(cfg, CodecStep(cfg, s))
  {
    if s.codec.KNoRoom? {
      NoRoomKeepsCounts(cfg, s);
    } else if s.codec.KCopied? || s.codec.KDrained? {
      FateKeepsCounts(cfg, s);
    } else {
      CodecUncounting(cfg, s);
      Uncounting(cfg, s, CodecStep(cfg, s));
    }
  }

  lemma CodecUncounting(cfg: Config, s: Stream)
    requires CodecEnabled(cfg, s) && Links(s) && !s.codec.KNoRoom? && !s.codec.KCopied? && !s.codec.KDrained?
    ensures Sized(cfg, CodecStep(cfg, s)) && SameCounts(s, CodecStep(cfg, s))
  {
    if Taking(s.codec) {
      TakingUncounting(cfg, s);
    } else if Forwarding(s.codec) {
      ForwardingUncounting(cfg, s);
    } else {
      LastUncounting(cfg, s);
    }
  }

  lemma TakingUncounting(cfg: Config, s: Stream)
    requires CodecEnabled(cfg, s) && Links(s) && Taking(s.codec) && !s.codec.KNoRoom?
    ensures Sized(cfg, CodecStep(cfg, s)) && SameCounts(s, CodecStep(cfg, s))
  {
  }

  lemma ForwardingUncounting(cfg: Config, s: Stream)
    requires CodecEnabled(cfg, s) && Links(s) && Forwarding(s.codec) && !s.codec.KCopied?
    ensures Sized(cfg, CodecStep(cfg, s)) && SameCounts(s, CodecStep(cfg, s))
  {
  }

  lemma LastUncounting(cfg: Config, s: Stream)
    requires CodecEnabled(cfg, s) && Links(s) && !Taking(s.codec) && !Forwarding(s.codec) && !s.codec.KDrained?
    ensures Sized(cfg, CodecStep(cfg, s)) && SameCounts(s, CodecStep(cfg, s))
  {
  }

  lemma NoRoomKeepsCounts(cfg: Config, s: Stream)
    requires CodecEnabled(cfg, s) && CountInv(cfg, s) && s.codec.KNoRoom?
    ensures CountInv(cfg, CodecStep(cfg, s))
  {
    SamePlayers(cfg, s, CodecStep(cfg, s));
  }

  lemma FateKeepsCounts(cfg: Config, s: Stream)
    requires CodecEnabled(cfg, s) && CountInv(cfg, s) && (s.codec.KCopied? || s.codec.KDrained?)
    ensures CountInv(cfg, CodecStep(cfg, s))
  {
    SamePlayers(cfg, s, CodecStep(cfg, s));
  }

  lemma PlaybackKeepsCounts(cfg: Config, s: Stream, write: WriteResult)
    requires PlaybackEnabled(cfg, s, write) && CountInv(cfg, s) && !s.play.PHold?
    ensures CountInv(cfg, PlaybackStep(cfg, s, write))
  {
    if s.play.PWrote? {
      WroteKeepsCounts(cfg, s, write);
    } else {
      Uncounting(cfg, s, PlaybackStep(cfg, s, write));
    }
  }

  lemma WroteKeepsCounts(cfg: Config, s: Stream, write: WriteResult)
    requires PlaybackEnabled(cfg, s, write) && CountInv(cfg, s) && s.play.PWrote?
    ensures CountInv(cfg, PlaybackStep(cfg, s, write))
  {
    SamePlayers(cfg, s, PlaybackStep(cfg, s, write));
  }

  lemma OutputKeepsCounts(cfg: Config, s: Stream, write: WriteResult)
    requires cfg.Valid() && PlaybackEnabled(cfg, s, write) && s.play.PHold?
    requires OnceInv(cfg, s) && PoolsInv(cfg, s) && DataInv(cfg, s) && CountInv(cfg, s)
    ensures CountInv(cfg, OutputStep(cfg, s, write))
  {
    var t, f := OutputStep(cfg, s, write), s.mp.cons.f;
    OutputFrames(cfg, s, write);
    if s.mpData[f].size == 0 || !write.Wrote? {
      Uncounting(cfg, s, t);
    } else {
      OutputExact(cfg, s, f);
      WriteOnce(cfg, s, t, s.origin[f], write.n);
    }
  }

  // The frames of one period are counted by the single write that is given it.
  lemma WriteOnce(cfg: Config, s: Stream, t: Stream, k: nat, n: nat)
    requires CountInv(cfg, s) && Sized(cfg, t) && k < |s.captured| && n <= s.captured[k].n
    requires forall j :: 0 <= j < |s.given| ==> s.given[j].origin != k
    requires s.play.PHold? && t.play == PWrote(n) && t.playedBy == s.playedBy[k := n]
    requires t == s.(given := t.given, playXruns := t.playXruns, error := t.error, playedBy := t.playedBy, play := t.play)
    requires |t.given| == |s.given| + 1 && s.given <= t.given && t.given[|s.given|].origin == k
    ensures CountInv(cfg, t)
  {
    assert s.playedBy[k] == 0;
    SumUpdate(s.playedBy, k, n);
    forall i | 0 <= i < |t.captured| && t.playedBy[i] != 0
      ensures exists j :: 0 <= j < |t.given| && t.given[j].origin == i {
      if i == k {
        assert t.given[|s.given|].origin == i;
      } else {
        var j :| 0 <= j < |s.given| && s.given[j].origin == i;
        assert t.given[j].origin == i;
      }
    }
  }

  lemma SpuriousKeepsCounts(cfg: Config, s: Stream)
    requires SpuriousEnabled(cfg, s) && CountInv(cfg, s)
    ensures CountInv(cfg, SpuriousStep(cfg, s))
  {
    Uncounting(cfg, s, SpuriousStep(cfg, s));
  }

  lemma StopKeepsCounts(cfg: Config, s: Stream)
    requires StopEnabled(cfg, s) && CountInv(cfg, s)
    ensures CountInv(cfg, StopStep(cfg, s))
  {
    Uncounting(cfg, s, StopStep(cfg, s));
  }

  lemma StartKeepsCounts(cfg: Config, s: Stream)
    requires StartEnabled(cfg, s) && CountInv(cfg, s) && s.cap.CExit? && s.codec.KExit? && s.play.PExit?
    ensures CountInv(cfg, StartStep(cfg, s))
  {
    SamePlayers(cfg, s, StartStep(cfg, s));
  }

  /** Never more frames played than captured, since the first start. */
  lemma PlayedAtMostCaptured(cfg: Config, s: Stream)
    requires CountInv(cfg, s)
    ensures s.since.pb <= s.pbTotal <= s.capTotal && s.since.cap <= s.capTotal
  {
    SumMonotone(s.playedBy, FrameCounts(s.captured));
  }
}

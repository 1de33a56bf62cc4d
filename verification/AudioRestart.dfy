/**
 A second start. It resets flags and counters but not the pools, so what the last run left in them
 is still there: a frame of size 0 that nobody took ends the playback thread of the new run.
 */
module AudioRestart {
  import opened AudioStream
  import opened AudioInvariant
  import opened AudioIntegrity
  import opened AudioStop
  import opened AudioTheorems
  import opened AudioExit
  import S = SpRing
  import M = MpPool

  // Some run leads from s to t.
  ghost predicate Reaches(cfg: Config, s: Stream, t: Stream) {
    exists steps :: Possible(cfg, s, steps) && Exec(cfg, s, steps) == t
  }

  lemma ReachesItself(cfg: Config, s: Stream)
    ensures Reaches(cfg, s, s)
  {
    assert Possible(cfg, s, []) && Exec(cfg, s, []) == s;
  }

  lemma {:induction false} ExecAppend(cfg: Config, s: Stream, xs: seq<Step>, ys: seq<Step>)
    requires Possible(cfg, s, xs) && Possible(cfg, Exec(cfg, s, xs), ys)
    ensures Possible(cfg, s, xs + ys) && Exec(cfg, s, xs + ys) == Exec(cfg, Exec(cfg, s, xs), ys)
    decreases |xs|
  {
    if xs == [] {
      assert xs + ys == ys;
    } else {
      assert (xs + ys)[1..] == xs[1..] + ys;
      ExecAppend(cfg, AudioStream.Apply(cfg, s, xs[0]), xs[1..], ys);
    }
  }

  lemma ReachesFurther(cfg: Config, s: Stream, t: Stream, u: Stream)
    requires Reaches(cfg, s, t) && Reaches(cfg, t, u)
    ensures Reaches(cfg, s, u)
  {
    var xs :| Possible(cfg, s, xs) && Exec(cfg, s, xs) == t;
    var ys :| Possible(cfg, t, ys) && Exec(cfg, t, ys) == u;
    ExecAppend(cfg, s, xs, ys);
  }

  lemma ReachesNext(cfg: Config, s: Stream, t: Stream, a: Step)
    requires Reaches(cfg, s, t) && Enabled(cfg, t, a)
    ensures Reaches(cfg, s, AudioStream.Apply(cfg, t, a))
  {
    var u := AudioStream.Apply(cfg, t, a);
    assert [a][1..] == [];
    assert Possible(cfg, u, []) && Exec(cfg, u, []) == u;
    assert Possible(cfg, t, [a]) && Exec(cfg, t, [a]) == u;
    ReachesFurther(cfg, s, t, u);
  }

  // ---- Playback on its own ----

  // What playback does not change as long as its device writes succeed.
  ghost predicate OnlyPlayback(s: Stream, t: Stream) {
    && t.running == s.running && t.error == s.error && t.codec == s.codec && t.captured == s.captured
    && t.since == s.since && t.mpData == s.mpData && t.mp.prods == s.mp.prods
  }

  // One step of playback, a write giving the device nothing.
  lemma PlaybackGoes(cfg: Config, s: Stream, t: Stream) returns (u: Stream)
    requires PoolsInv(cfg, t) && Reaches(cfg, s, t) && OnlyPlayback(s, t) && PlaybackEnabled(cfg, t, Wrote(0))
    ensures u == PlaybackStep(cfg, t, Wrote(0)) && PoolsInv(cfg, u) && Reaches(cfg, s, u) && OnlyPlayback(s, u)
  {
    u := PlaybackStep(cfg, t, Wrote(0));
    PlaybackPools(cfg, t, Wrote(0));
    ReachesNext(cfg, s, t, Playback(Wrote(0)));
    PlaybackMoves(cfg, t, Wrote(0));
    PlaybackAlone(cfg, t);
  }

  lemma PlaybackAlone(cfg: Config, t: Stream)
    requires PlaybackEnabled(cfg, t, Wrote(0)) && Links(t)
    ensures OnlyPlayback(t, PlaybackStep(cfg, t, Wrote(0)))
  {
  }

  ghost predicate AtRest(cfg: Config, s: Stream) {
    PoolsInv(cfg, s) && s.running && s.codec.KTop? && s.play.PTop? && EmptyReady(cfg, s)
  }

  lemma ReadyIsPending(p: M.Pool, i: nat)
    requires M.Inv(p) && |p.prods| == 1 && p.prods[0].Idle? && i < p.Count() && p.refs[i] >= 2 && p.cons.Resting?
    ensures p.pending > 0 && p.mutex.Free?
  {
    assert i in M.Ready(p);
    assert M.InFlight(p) == {};
    assert M.Counting(p) && M.Locked(p);
  }

  lemma PendingReady(cfg: Config, s: Stream)
    requires AtRest(cfg, s)
    ensures s.mp.pending > 0 && s.mp.mutex.Free? && s.mp.cons.Resting?
  {
    var i :| 0 <= i < cfg.poolFrames && s.mp.refs[i] >= 2 && s.mpData[i].size == 0;
    assert PoolsInv(cfg, s) && Links(s);
    ReadyIsPending(s.mp, i);
  }

  // The first steps, one by one
  lemma TopGoes(cfg: Config, s: Stream)
    requires Sized(cfg, s) && s.play.PTop? && s.running
    ensures PlaybackEnabled(cfg, s, Wrote(0)) && PlaybackStep(cfg, s, Wrote(0)).play.PTake?
    ensures PlaybackStep(cfg, s, Wrote(0)).mp == s.mp
  {
  }

  lemma EnterGoes(cfg: Config, s: Stream)
    requires Sized(cfg, s) && s.play.PTake? && s.mp.cons.Resting?
    ensures PlaybackEnabled(cfg, s, Wrote(0)) && PlaybackStep(cfg, s, Wrote(0)).play.PTake?
    ensures PlaybackStep(cfg, s, Wrote(0)).mp == s.mp.(cons := M.Locking)
  {
  }

  lemma LockGoes(cfg: Config, s: Stream)
    requires Sized(cfg, s) && s.play.PTake? && s.mp.cons.Locking? && s.mp.mutex.Free?
    ensures PlaybackEnabled(cfg, s, Wrote(0)) && PlaybackStep(cfg, s, Wrote(0)).play.PTake?
    ensures PlaybackStep(cfg, s, Wrote(0)).mp == s.mp.(cons := M.Checking, mutex := M.ByConsumer)
  {
  }

  lemma CheckGoes(cfg: Config, s: Stream)
    requires Sized(cfg, s) && s.play.PTake? && s.mp.cons.Checking? && s.mp.pending > 0
    ensures PlaybackEnabled(cfg, s, Wrote(0)) && PlaybackStep(cfg, s, Wrote(0)).play.PTake?
    ensures PlaybackStep(cfg, s, Wrote(0)).mp == s.mp.(cons := M.Scanning(0))
  {
  }

  lemma Enters(cfg: Config, s: Stream) returns (t: Stream)
    requires AtRest(cfg, s)
    ensures PoolsInv(cfg, t) && Reaches(cfg, s, t) && OnlyPlayback(s, t)
    ensures t.play.PTake? && t.mp == s.mp.(cons := M.Locking)
  {
    ReachesItself(cfg, s);
    PendingReady(cfg, s);
    TopGoes(cfg, s);
    t := PlaybackGoes(cfg, s, s);
    EnterGoes(cfg, t);
    t := PlaybackGoes(cfg, s, t);
  }

  // The dequeue up to its scan
  lemma EntersScan(cfg: Config, s: Stream) returns (t: Stream)
    requires AtRest(cfg, s)
    ensures PoolsInv(cfg, t) && Reaches(cfg, s, t) && OnlyPlayback(s, t)
    ensures t.play.PTake? && t.mp.cons == M.Scanning(0) && t.mp.refs == s.mp.refs
  {
    PendingReady(cfg, s);
    t := Enters(cfg, s);
    LockGoes(cfg, t);
    t := PlaybackGoes(cfg, s, t);
    CheckGoes(cfg, t);
    t := PlaybackGoes(cfg, s, t);
  }

  lemma ScanGoes(cfg: Config, s: Stream)
    requires PoolsInv(cfg, s) && s.play.PTake? && s.mp.cons.Scanning?
    ensures s.mp.cons.i < cfg.poolFrames
    ensures PlaybackEnabled(cfg, s, Wrote(0)) && PlaybackStep(cfg, s, Wrote(0)).play.PTake?
    ensures var p := PlaybackStep(cfg, s, Wrote(0)).mp;
            p.refs == s.mp.refs && (p.cons.Picked? || p.cons == M.Scanning(s.mp.cons.i + 1))
  {
    assert M.Scans(s.mp);
  }

  lemma {:induction false} Scans(cfg: Config, s: Stream, t: Stream) returns (u: Stream)
    requires PoolsInv(cfg, t) && Reaches(cfg, s, t) && OnlyPlayback(s, t) && t.play.PTake? && t.mp.cons.Scanning?
    ensures PoolsInv(cfg, u) && Reaches(cfg, s, u) && OnlyPlayback(s, u)
    ensures u.play.PTake? && u.mp.cons.Picked? && u.mp.refs == t.mp.refs
    decreases cfg.poolFrames - t.mp.cons.i
  {
    ScanGoes(cfg, t);
    u := PlaybackGoes(cfg, s, t);
    if u.mp.cons.Scanning? {
      u := Scans(cfg, s, u);
    }
  }

  lemma TakesFrame(cfg: Config, s: Stream) returns (t: Stream)
    requires AtRest(cfg, s)
    ensures PoolsInv(cfg, t) && Reaches(cfg, s, t) && OnlyPlayback(s, t) && t.play.PHold? && t.mp.refs == s.mp.refs
  {
    t := EntersScan(cfg, s);
    t := Scans(cfg, s, t);
    t := LeavesPool(cfg, s, t);
  }

  lemma LeavesPool(cfg: Config, s: Stream, t: Stream) returns (u: Stream)
    requires PoolsInv(cfg, t) && Reaches(cfg, s, t) && OnlyPlayback(s, t) && t.play.PTake? && t.mp.cons.Picked?
    ensures PoolsInv(cfg, u) && Reaches(cfg, s, u) && OnlyPlayback(s, u) && u.play.PHold? && u.mp.refs == t.mp.refs
  {
    u := PlaybackGoes(cfg, s, t);
    u := PlaybackGoes(cfg, s, u);
  }

  lemma LeavesOnEmpty(cfg: Config, s: Stream, t: Stream) returns (u: Stream)
    requires PoolsInv(cfg, t) && Reaches(cfg, s, t) && OnlyPlayback(s, t) && t.play.PHold? && t.mpData[t.mp.cons.f].size == 0
    ensures Reaches(cfg, s, u) && OnlyPlayback(s, u) && u.play.PExit?
  {
    u := PlaybackGoes(cfg, s, t);
    u := PlaybackGoes(cfg, s, u);
  }

  lemma PlaysFrame(cfg: Config, s: Stream, t: Stream) returns (u: Stream)
    requires PoolsInv(cfg, t) && Reaches(cfg, s, t) && OnlyPlayback(s, t) && t.play.PHold? && t.mpData[t.mp.cons.f].size != 0
    ensures PoolsInv(cfg, u) && Reaches(cfg, s, u) && OnlyPlayback(s, u) && u.play.PTop?
    ensures u.mp.refs == t.mp.refs[t.mp.cons.f := 0]
  {
    u := PlaybackGoes(cfg, s, t);
    u := PlaybackGoes(cfg, s, u);
    u := PlaybackGoes(cfg, s, u);
  }

  // Ready frames, as a measure
  function Twos(refs: seq<nat>): set<nat> {
    set i | 0 <= i < |refs| && refs[i] >= 2
  }

  lemma OneLess(refs: seq<nat>, f: nat)
    requires f < |refs| && refs[f] >= 2
    ensures |Twos(refs[f := 0])| < |Twos(refs)|
  {
    assert Twos(refs) == Twos(refs[f := 0]) + {f};
  }

  /**
   With an empty frame ready, playback on its own plays what comes before and then leaves, with the
   stream running, no error flag, and nothing captured.
   */
  lemma {:induction false} PlaybackLeaves(cfg: Config, s: Stream) returns (u: Stream)
    requires AtRest(cfg, s)
    ensures Reaches(cfg, s, u) && OnlyPlayback(s, u) && u.play.PExit?
    decreases |Twos(s.mp.refs)|
  {
    var t := TakesFrame(cfg, s);
    var f := t.mp.cons.f;
    assert M.Inv(t.mp) && t.mp.refs[f] == 2;
    if t.mpData[f].size == 0 {
      u := LeavesOnEmpty(cfg, s, t);
    } else {
      var v := PlaysFrame(cfg, s, t);
      OneLess(s.mp.refs, f);
      StillEmptyReady(cfg, s, v, f);
      u := PlaybackLeaves(cfg, v);
      ReachesFurther(cfg, s, v, u);
    }
  }

  lemma StillEmptyReady(cfg: Config, s: Stream, v: Stream, f: nat)
    requires Sized(cfg, s) && Sized(cfg, v) && EmptyReady(cfg, s) && f < cfg.poolFrames && s.mpData[f].size != 0
    requires v.mpData == s.mpData && v.mp.refs == s.mp.refs[f := 0]
    ensures EmptyReady(cfg, v)
  {
    var i :| 0 <= i < cfg.poolFrames && s.mp.refs[i] >= 2 && s.mpData[i].size == 0;
    assert v.mp.refs[i] >= 2 && v.mpData[i].size == 0;
  }

  // ---- When a start is clean ----

  // In every continuation of this run, playback leaves early only with the error flag up or after an empty read.
  ghost predicate Clean(cfg: Config, u: Stream) {
    forall t :: Reaches(cfg, u, t) && t.since == u.since && t.running && t.play.PExit? ==> t.error || EmptyRead(t)
  }

  /**
   A start is clean exactly when it finds no empty ready frame in the second pool, unless the ring still
   holds an empty period anyway.
   */
  lemma CleanStart(cfg: Config, s: Stream)
    requires Inv(cfg, s) && StartEnabled(cfg, s)
    ensures Clean(cfg, StartStep(cfg, s)) <==> !EmptyReady(cfg, s) || EmptyRead(StartStep(cfg, s))
  {
    var u := StartStep(cfg, s);
    StarterInv(cfg, s);
    forall t | Reaches(cfg, u, t) && t.since == u.since && t.running && t.play.PExit? && (!EmptyReady(cfg, s) || EmptyRead(u))
      ensures t.error || EmptyRead(t) {
      CleanRun(cfg, u, t);
    }
    if EmptyReady(cfg, s) && !EmptyRead(u) {
      Unclean(cfg, u);
    }
  }

  lemma Unclean(cfg: Config, u: Stream)
    requires AtRest(cfg, u) && !u.error && !EmptyRead(u)
    ensures !Clean(cfg, u)
  {
    var t := PlaybackLeaves(cfg, u);
    assert !t.error && !EmptyRead(t);
  }

  lemma CleanRun(cfg: Config, u: Stream, t: Stream)
    requires Inv(cfg, u) && ExitInv(u) && Reaches(cfg, u, t) && t.since == u.since && t.running && t.play.PExit?
    requires !u.since.stale || EmptyRead(u)
    ensures t.error || EmptyRead(t)
  {
    var steps :| Possible(cfg, u, steps) && Exec(cfg, u, steps) == t;
    RunKeepsExit(cfg, u, steps);
    if EmptyRead(u) {
      CapturedGrows(cfg, u, steps);
      EmptyReadStays(u, t);
    }
  }

  lemma EmptyReadStays(u: Stream, t: Stream)
    requires EmptyRead(u) && t.since == u.since && u.captured <= t.captured
    ensures EmptyRead(t)
  {
    var k :| u.since.ring <= k < |u.captured| && u.captured[k].pcm == [];
    assert t.captured[k].pcm == [];
  }

  lemma {:induction false} CapturedGrows(cfg: Config, s: Stream, steps: seq<Step>)
    requires Possible(cfg, s, steps)
    ensures s.captured <= Exec(cfg, s, steps).captured
    decreases |steps|
  {
    if steps != [] {
      CapturedStep(cfg, s, steps[0]);
      CapturedGrows(cfg, AudioStream.Apply(cfg, s, steps[0]), steps[1..]);
    }
  }

  lemma CapturedStep(cfg: Config, s: Stream, a: Step)
    requires Enabled(cfg, s, a)
    ensures s.captured <= AudioStream.Apply(cfg, s, a).captured
  {
    match a {
      case Capture(read) => CaptureGrows(cfg, s, read);
      case Codec => CodecCaptures(cfg, s);
      case Playback(write) => PlaybackCaptures(cfg, s, write);
      case Spurious =>
      case Stop =>
      case Start =>
    }
  }

  lemma CaptureGrows(cfg: Config, s: Stream, read: ReadResult)
    requires CaptureEnabled(cfg, s, read)
    ensures s.captured <= CaptureStep(cfg, s, read).captured
  {
  }

  lemma CodecCaptures(cfg: Config, s: Stream)
    requires CodecEnabled(cfg, s)
    ensures CodecStep(cfg, s).captured == s.captured
  {
  }

  lemma PlaybackCaptures(cfg: Config, s: Stream, write: WriteResult)
    requires PlaybackEnabled(cfg, s, write)
    ensures PlaybackStep(cfg, s, write).captured == s.captured
  {
  }
}

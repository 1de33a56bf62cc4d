/**
 The operations of `libbb/bb_pool.c` in their own form: methods over the shared pool that perform
 one atomic operation after another, while the other threads run between any two of them.
 What the others do in each gap is an argument, so the contracts hold for every interleaving.
 */
module FramePool {
  import opened Options
  import S = SpRing
  import M = MpPool

  // ---- SPSC ----

  predicate ByConsumer<T>(step: S.Step<T>) {
    step.TakeLoadW? || step.TakeLoadR? || step.TakeCheck? || step.TakeBump? || step.Release?
  }

  // A step of a consumer that holds one frame at a time.
  lemma ConsumerStep<T>(s: S.Ring<T>, step: S.Step<T>)
    requires S.Inv(s) && S.SingleHolder(s) && S.Enabled(s, step)
    requires ByConsumer(step) && (step.TakeLoadW? ==> s.held == {})
    ensures var t := S.Apply(s, step);
            && S.Inv(t) && S.SingleHolder(t)
            && t.w == s.w && t.prod == s.prod && t.data == s.data && t.committed == s.committed
            && t.Count() == s.Count() && t.r >= s.r
  {
    S.StepInv(s, step);
    S.StepSingleHolder(s, step);
  }

  class SharedRing<T> {
    var ring: S.Ring<T>

    constructor (count: nat, x: T)
      requires count > 0
      ensures S.Inv(ring) && S.SingleHolder(ring) && ring == S.Init(count, x)
    {
      ring := S.Init(count, x);
      S.InitInv(count, x);
    }

    // The consumer, holding one frame at a time, runs for a while.
    method ConsumerRuns(others: seq<S.Step<T>>)
      requires S.Inv(ring) && S.SingleHolder(ring)
      requires forall i :: 0 <= i < |others| ==> ByConsumer(others[i])
      modifies this
      ensures S.Inv(ring) && S.SingleHolder(ring)
      ensures ring.w == old(ring.w) && ring.prod == old(ring.prod) && ring.data == old(ring.data)
      ensures ring.committed == old(ring.committed) && ring.Count() == old(ring.Count()) && ring.r >= old(ring.r)
    {
      for i := 0 to |others|
        invariant S.Inv(ring) && S.SingleHolder(ring)
        invariant ring.w == old(ring.w) && ring.prod == old(ring.prod) && ring.data == old(ring.data)
        invariant ring.committed == old(ring.committed) && ring.Count() == old(ring.Count()) && ring.r >= old(ring.r)
      {
        if S.Enabled(ring, others[i]) && (others[i].TakeLoadW? ==> ring.held == {}) {
          ConsumerStep(ring, others[i]);
          ring := S.Apply(ring, others[i]);
        }
      }
    }

    // The producer runs for a while.
    method ProducerRuns(others: seq<S.Step<T>>)
      requires S.Inv(ring) && S.SingleHolder(ring)
      requires forall i :: 0 <= i < |others| ==> !ByConsumer(others[i])
      modifies this
      ensures S.Inv(ring) && S.SingleHolder(ring)
      ensures ring.r == old(ring.r) && ring.cons == old(ring.cons) && ring.held == old(ring.held)
      ensures ring.taken == old(ring.taken) && old(ring.committed) <= ring.committed && ring.w >= old(ring.w)
    {
      for i := 0 to |others|
        invariant S.Inv(ring) && S.SingleHolder(ring)
        invariant ring.r == old(ring.r) && ring.cons == old(ring.cons) && ring.held == old(ring.held)
        invariant ring.taken == old(ring.taken) && old(ring.committed) <= ring.committed && ring.w >= old(ring.w)
      {
        if S.Enabled(ring, others[i]) {
          S.StepInv(ring, others[i]);
          S.StepSingleHolder(ring, others[i]);
          ring := S.Apply(ring, others[i]);
        }
      }
    }

    // Succeeds whenever at least two frames are not queued at the call, whatever the consumer does meanwhile.
    method SpAcquire(gap1: seq<S.Step<T>>, gap2: seq<S.Step<T>>) returns (f: Option<nat>)
      requires S.Inv(ring) && S.SingleHolder(ring) && ring.prod.PIdle?
      requires forall i :: 0 <= i < |gap1| ==> ByConsumer(gap1[i])
      requires forall i :: 0 <= i < |gap2| ==> ByConsumer(gap2[i])
      modifies this
      ensures S.Inv(ring) && S.SingleHolder(ring)
      ensures ring.w == old(ring.w) && ring.committed == old(ring.committed) && ring.data == old(ring.data)
      ensures f.Some? ==> ring.prod.POwns? && f.value == ring.Slot(ring.w) && ring.refs[f.value] == 1
      ensures f.None? ==> ring.prod.PIdle?
      ensures old(ring.w) - old(ring.r) < ring.Count() - 1 ==> f.Some?
    {
      var room := TestWindow(gap1);
      if !room {
        return None;
      }
      ConsumerRuns(gap2);
      f := ClaimFrame();
    }

    // The two loads of acquire and the comparison, which refuses only a full ring.
    method TestWindow(gap: seq<S.Step<T>>) returns (room: bool)
      requires S.Inv(ring) && S.SingleHolder(ring) && ring.prod.PIdle?
      requires forall i :: 0 <= i < |gap| ==> ByConsumer(gap[i])
      modifies this
      ensures S.Inv(ring) && S.SingleHolder(ring) && ring.Count() == old(ring.Count())
      ensures ring.w == old(ring.w) && ring.committed == old(ring.committed) && ring.data == old(ring.data)
      ensures room <==> ring.prod.PSawR?
      ensures !room ==> ring.prod.PIdle?
      ensures room <==> ring.w - ring.r < ring.Count()
      ensures ring.r >= old(ring.r)
    {
      LoadWrite();
      ConsumerRuns(gap);
      room := LoadRead();
    }

    method LoadWrite()
      requires S.Inv(ring) && S.SingleHolder(ring) && ring.prod.PIdle?
      modifies this
      ensures S.Inv(ring) && S.SingleHolder(ring) && ring.prod.PSawW? && ring == old(ring).(prod := ring.prod)
    {
      S.StepInv(ring, S.LoadW);
      ring := S.Apply(ring, S.LoadW);
    }

    method LoadRead() returns (room: bool)
      requires S.Inv(ring) && S.SingleHolder(ring) && ring.prod.PSawW?
      modifies this
      ensures S.Inv(ring) && S.SingleHolder(ring) && ring == old(ring).(prod := ring.prod)
      ensures if room then ring.prod.PSawR? else ring.prod.PIdle?
      ensures room <==> ring.w - ring.r < ring.Count()
    {
      S.StepInv(ring, S.LoadR);
      S.WindowRefusal(ring);
      ring := S.Apply(ring, S.LoadR);
      return ring.prod.PSawR?;
    }

    // The compare-and-swap of acquire, which fails only one short of full.
    method ClaimFrame() returns (f: Option<nat>)
      requires S.Inv(ring) && S.SingleHolder(ring) && ring.prod.PSawR?
      modifies this
      ensures S.Inv(ring) && S.SingleHolder(ring) && ring.Count() == old(ring.Count())
      ensures ring.w == old(ring.w) && ring.committed == old(ring.committed) && ring.data == old(ring.data)
      ensures f.Some? ==> ring.prod.POwns? && f.value == ring.Slot(ring.w) && ring.refs[f.value] == 1
      ensures f.None? ==> ring.prod.PIdle?
      ensures f.None? <==> old(ring.held) != {} && ring.w - ring.r == ring.Count() - 1
      ensures ring.r == old(ring.r)
    {
      S.StepInv(ring, S.Cas);
      S.CasRefusal(ring);
      ring := S.Apply(ring, S.Cas);
      if ring.prod.PIdle? {
        return None;
      }
      assert S.Live(ring, ring.w);
      return Some(ring.Slot(ring.w));
    }

    method SpCommit()
      requires S.Inv(ring) && S.SingleHolder(ring) && ring.prod.POwns?
      modifies this
      ensures S.Inv(ring) && S.SingleHolder(ring)
      ensures ring.w == old(ring.w) + 1 && ring.r == old(ring.r) && ring.prod.PIdle?
      ensures ring.committed == old(ring.committed) + [old(ring.data[ring.Slot(ring.w)])]
    {
      S.StepInv(ring, S.Commit);
      ring := S.Apply(ring, S.Commit);
    }

    // Returns the oldest committed frame exactly when there was one at the call.
    method SpDequeue(gap1: seq<S.Step<T>>, gap2: seq<S.Step<T>>, gap3: seq<S.Step<T>>) returns (f: Option<nat>)
      requires S.Inv(ring) && ring.cons.CIdle? && ring.held == {}
      requires forall i :: 0 <= i < |gap1| ==> !ByConsumer(gap1[i])
      requires forall i :: 0 <= i < |gap2| ==> !ByConsumer(gap2[i])
      requires forall i :: 0 <= i < |gap3| ==> !ByConsumer(gap3[i])
      modifies this
      ensures S.Inv(ring) && S.SingleHolder(ring) && ring.cons.CIdle?
      ensures f.Some? <==> old(ring.r) < old(ring.w)
      ensures f.Some? ==>
                && f.value == ring.Slot(old(ring.r)) && ring.data[f.value] == old(ring.committed)[old(ring.r)]
                && ring.r == old(ring.r) + 1 && ring.held == {old(ring.r)}
                && ring.taken == old(ring.taken) + [old(ring.committed)[old(ring.r)]]
      ensures f.None? ==> ring.r == old(ring.r) && ring.held == {} && ring.taken == old(ring.taken)
    {
      var r0 := ring.r;
      S.StepInv(ring, S.TakeLoadW);
      ring := S.Apply(ring, S.TakeLoadW);
      ProducerRuns(gap1);
      S.StepInv(ring, S.TakeLoadR);
      ring := S.Apply(ring, S.TakeLoadR);
      if ring.cons.CIdle? {
        return None;
      }
      ProducerRuns(gap2);
      S.StepInv(ring, S.TakeCheck);
      S.CheckPasses(ring);
      ring := S.Apply(ring, S.TakeCheck);
      ProducerRuns(gap3);
      S.StepInv(ring, S.TakeBump);
      S.StepSingleHolder(ring, S.TakeBump);
      ring := S.Apply(ring, S.TakeBump);
      S.ExclusiveFrames(ring, r0);
      return Some(ring.Slot(r0));
    }

    method SpRelease(k: nat)
      requires S.Inv(ring) && S.SingleHolder(ring) && ring.cons.CIdle? && k in ring.held
      modifies this
      ensures S.Inv(ring) && S.SingleHolder(ring) && ring.held == {} && ring.cons.CIdle?
      ensures ring.refs == old(ring.refs)[old(ring.Slot(k)) := 0] && ring.w == old(ring.w) && ring.r == old(ring.r)
    {
      S.StepInv(ring, S.Release(k));
      ring := S.Apply(ring, S.Release(k));
    }
  }

  // ---- MPSC ----

  predicate ByOthers(p: nat, step: M.Step) {
    match step
    case Start(q) => q != p
    case Cas(q) => q != p
    case GiveUp(q) => q != p
    case Bump(q) => q != p
    case Lock(q) => q != p
    case CountUp(q) => q != p
    case Signal(q) => q != p
    case Unlock(q) => q != p
    case _ => true
  }

  predicate ByProducer(step: M.Step) {
    step.Start? || step.Cas? || step.GiveUp? || step.Bump? || step.Lock? || step.CountUp? || step.Signal? || step.Unlock?
  }

  // What others do in a gap; a step that is not possible is passed over.
  function AfterGap(s: M.Pool, others: seq<M.Step>): M.Pool
    decreases |others|
  {
    if others == [] then s
    else AfterGap(if M.Enabled(s, others[0]) then M.Apply(s, others[0]) else s, others[1..])
  }

  lemma {:induction false} GapKeeps(s: M.Pool, others: seq<M.Step>)
    ensures |AfterGap(s, others).prods| == |s.prods| && AfterGap(s, others).Count() == s.Count()
    decreases |others|
  {
    if others != [] {
      GapKeeps(if M.Enabled(s, others[0]) then M.Apply(s, others[0]) else s, others[1..]);
    }
  }

  // The pool when the producer turns to frame i, having found every frame before it in use.
  function BeforeProbe(s: M.Pool, p: nat, gaps: seq<seq<M.Step>>, i: nat): (t: M.Pool)
    requires p < |s.prods| && i <= |gaps|
    ensures |t.prods| == |s.prods| && t.Count() == s.Count()
    decreases i, 0
  {
    var t := if i == 0 then s else WhenProbed(s, p, gaps, i - 1);
    t.(prods := t.prods[p := M.Probing(i)])
  }

  // The pool when it looks at frame i: the others have run in the gap before.
  function WhenProbed(s: M.Pool, p: nat, gaps: seq<seq<M.Step>>, i: nat): (t: M.Pool)
    requires p < |s.prods| && i < |gaps|
    ensures |t.prods| == |s.prods| && t.Count() == s.Count()
    decreases i, 1
  {
    GapKeeps(BeforeProbe(s, p, gaps, i), gaps[i]);
    AfterGap(BeforeProbe(s, p, gaps, i), gaps[i])
  }

  // Each of the first n frames was in use when it was looked at.
  predicate InUse(s: M.Pool, p: nat, gaps: seq<seq<M.Step>>, n: nat)
    requires p < |s.prods| && n <= |gaps| == s.Count()
  {
    forall i :: 0 <= i < n ==> WhenProbed(s, p, gaps, i).refs[i] != 0
  }

  // Neither takes a frame nor gives one back.
  predicate Quiet(others: seq<M.Step>) {
    forall i :: 0 <= i < |others| ==> !others[i].Cas? && !others[i].Release?
  }

  predicate SameFree(s: M.Pool, t: M.Pool) {
    t.Count() == s.Count() && forall i :: 0 <= i < s.Count() ==> (t.refs[i] == 0 <==> s.refs[i] == 0)
  }

  lemma {:induction false} QuietGap(s: M.Pool, others: seq<M.Step>)
    requires M.Inv(s) && Quiet(others)
    ensures SameFree(s, AfterGap(s, others))
    decreases |others|
  {
    if others != [] {
      if M.Enabled(s, others[0]) {
        M.StepInv(s, others[0]);
        assert SameFree(s, M.Apply(s, others[0]));
      }
      QuietGap(if M.Enabled(s, others[0]) then M.Apply(s, others[0]) else s, others[1..]);
    }
  }

  // The same for the scan: the pool when the consumer turns to frame i, and when it looks at it.
  function BeforeScan(s: M.Pool, gaps: seq<seq<M.Step>>, i: nat): (t: M.Pool)
    requires i <= |gaps|
    ensures t.Count() == s.Count()
    decreases i, 0
  {
    var t := if i == 0 then s else WhenScanned(s, gaps, i - 1);
    t.(cons := M.Scanning(i))
  }

  function WhenScanned(s: M.Pool, gaps: seq<seq<M.Step>>, i: nat): (t: M.Pool)
    requires i < |gaps|
    ensures t.Count() == s.Count()
    decreases i, 1
  {
    GapKeeps(BeforeScan(s, gaps, i), gaps[i]);
    AfterGap(BeforeScan(s, gaps, i), gaps[i])
  }

  // Frame f is the first that is published when it is looked at.
  predicate FirstPublished(s: M.Pool, gaps: seq<seq<M.Step>>, f: nat)
    requires |gaps| == s.Count()
  {
    && f < s.Count() && WhenScanned(s, gaps, f).refs[f] >= 2
    && forall i :: 0 <= i < f ==> WhenScanned(s, gaps, i).refs[i] < 2
  }

  function LowestFree(refs: seq<nat>): (i: nat)
    ensures i <= |refs| && (i < |refs| ==> refs[i] == 0) && forall k :: 0 <= k < i ==> refs[k] != 0
  {
    if refs == [] || refs[0] == 0 then 0 else 1 + LowestFree(refs[1..])
  }

  lemma ProbingInv(s: M.Pool, p: nat, i: nat)
    requires M.Inv(s) && p < |s.prods| && (s.prods[p].Idle? || s.prods[p].Probing?)
    ensures M.Inv(s.(prods := s.prods[p := M.Probing(i)]))
  {
    var t := s.(prods := s.prods[p := M.Probing(i)]);
    M.SameOwnership(s, t);
    assert M.Ready(t) == M.Ready(s) && M.InFlight(t) == M.InFlight(s);
  }

  lemma {:induction false} GapInv(s: M.Pool, p: nat, others: seq<M.Step>)
    requires M.Inv(s) && p < |s.prods| && forall k :: 0 <= k < |others| ==> ByOthers(p, others[k])
    ensures M.Inv(AfterGap(s, others)) && p < |AfterGap(s, others).prods| && AfterGap(s, others).prods[p] == s.prods[p]
    decreases |others|
  {
    if others != [] {
      if M.Enabled(s, others[0]) {
        M.StepInv(s, others[0]);
      }
      GapInv(if M.Enabled(s, others[0]) then M.Apply(s, others[0]) else s, p, others[1..]);
    }
  }

  predicate QuietGaps(p: nat, gaps: seq<seq<M.Step>>) {
    forall g :: 0 <= g < |gaps| ==> Quiet(gaps[g]) && forall k :: 0 <= k < |gaps[g]| ==> ByOthers(p, gaps[g][k])
  }

  lemma {:induction false} QuietProbe(s: M.Pool, p: nat, gaps: seq<seq<M.Step>>, i: nat)
    requires M.Inv(s) && p < |s.prods| && s.prods[p].Idle? && i < |gaps| == s.Count() && QuietGaps(p, gaps)
    ensures var t := WhenProbed(s, p, gaps, i); M.Inv(t) && t.prods[p].Probing? && SameFree(s, t)
    decreases i
  {
    if i > 0 {
      QuietProbe(s, p, gaps, i - 1);
    }
    var t := if i == 0 then s else WhenProbed(s, p, gaps, i - 1);
    ProbingInv(t, p, i);
    GapInv(BeforeProbe(s, p, gaps, i), p, gaps[i]);
    QuietGap(BeforeProbe(s, p, gaps, i), gaps[i]);
  }

  /** While nobody takes or gives back a frame, acquire returns the lowest free one, and NULL exactly without one. */
  lemma QuietAcquire(s: M.Pool, p: nat, gaps: seq<seq<M.Step>>, f: Option<nat>)
    requires M.Inv(s) && p < |s.prods| && s.prods[p].Idle? && |gaps| == s.Count() && QuietGaps(p, gaps)
    requires Acquired(s, p, gaps, f)
    ensures f == if LowestFree(s.refs) < s.Count() then Some(LowestFree(s.refs)) else None
  {
    var i := LowestFree(s.refs);
    var n := if f.Some? then f.value else |gaps|;
    if n < |gaps| {
      QuietProbe(s, p, gaps, n);
    }
    if i < n {
      QuietProbe(s, p, gaps, i);
    }
  }

  // The first frame that is free when it is looked at, or none if every one was in use when it was.
  predicate Acquired(s: M.Pool, p: nat, gaps: seq<seq<M.Step>>, f: Option<nat>)
    requires p < |s.prods| && |gaps| == s.Count()
  {
    match f
    case Some(i) => i < |gaps| && InUse(s, p, gaps, i) && WhenProbed(s, p, gaps, i).refs[i] == 0
    case None => InUse(s, p, gaps, |gaps|)
  }

  // Frame f is taken by producer p and by nobody else.
  predicate SoleOwner(s: M.Pool, p: nat, f: nat) {
    && p < |s.prods| && s.prods[p] == M.Owns(f) && f < s.Count() && s.refs[f] == 1
    && forall q :: 0 <= q < |s.prods| && q != p ==> s.prods[q] != M.Owns(f)
  }

  lemma OwnerIsSole(s: M.Pool, p: nat)
    requires M.Inv(s) && p < |s.prods| && s.prods[p].Owns?
    ensures SoleOwner(s, p, s.prods[p].f)
  {
  }

  class SharedPool {
    var pool: M.Pool

    constructor (count: nat, producers: nat)
      ensures M.Inv(pool) && pool == M.Init(count, producers)
    {
      pool := M.Init(count, producers);
      M.InitInv(count, producers);
    }

    // Everyone but producer p runs for a while.
    method OthersRun(p: nat, others: seq<M.Step>)
      requires M.Inv(pool) && p < |pool.prods|
      requires forall i :: 0 <= i < |others| ==> ByOthers(p, others[i])
      modifies this
      ensures M.Inv(pool) && pool == AfterGap(old(pool), others)
      ensures pool.Count() == old(pool.Count()) && |pool.prods| == old(|pool.prods|)
      ensures pool.prods[p] == old(pool.prods[p])
    {
      for i := 0 to |others|
        invariant M.Inv(pool) && pool.Count() == old(pool.Count()) && |pool.prods| == old(|pool.prods|)
        invariant pool.prods[p] == old(pool.prods[p])
        invariant AfterGap(pool, others[i..]) == AfterGap(old(pool), others)
      {
        assert others[i..][0] == others[i] && others[i..][1..] == others[i + 1..];
        if M.Enabled(pool, others[i]) {
          M.StepInv(pool, others[i]);
          pool := M.Apply(pool, others[i]);
        }
      }
    }

    // A step without a frame: the loop begins, or has run out
    method Advance(p: nat, step: M.Step)
      requires M.Inv(pool) && M.Enabled(pool, step) && (step == M.Start(p) || step == M.GiveUp(p))
      modifies this
      ensures M.Inv(pool) && pool == old(pool).(prods := old(pool).prods[p := if step.Start? then M.Probing(0) else M.Idle])
    {
      M.StepInv(pool, step);
      pool := M.Apply(pool, step);
    }

    // One compare-and-swap
    method ClaimAt(p: nat, i: nat) returns (claimed: bool)
      requires M.Inv(pool) && p < |pool.prods| && pool.prods[p] == M.Probing(i) && i < pool.Count()
      modifies this
      ensures M.Inv(pool)
      ensures claimed == (old(pool).refs[i] == 0)
      ensures if claimed then SoleOwner(pool, p, i)
              else pool == old(pool).(prods := old(pool).prods[p := M.Probing(i + 1)])
    {
      M.StepInv(pool, M.Cas(p));
      pool := M.Apply(pool, M.Cas(p));
      claimed := pool.prods[p].Owns?;
      if claimed {
        OwnerIsSole(pool, p);
      }
    }

    // And behind its gap
    method ProbeFrame(p: nat, gaps: seq<seq<M.Step>>, i: nat, ghost was: M.Pool) returns (claimed: bool)
      requires M.Inv(pool) && p < |was.prods| && i < |gaps| == was.Count() && pool == BeforeProbe(was, p, gaps, i)
      requires forall k :: 0 <= k < |gaps[i]| ==> ByOthers(p, gaps[i][k])
      modifies this
      ensures M.Inv(pool)
      ensures claimed == (WhenProbed(was, p, gaps, i).refs[i] == 0)
      ensures if claimed then SoleOwner(pool, p, i) else pool == BeforeProbe(was, p, gaps, i + 1)
    {
      OthersRun(p, gaps[i]);
      claimed := ClaimAt(p, i);
    }

    // The loop over the frames
    method ProbeFrames(p: nat, gaps: seq<seq<M.Step>>, ghost was: M.Pool) returns (f: Option<nat>)
      requires M.Inv(pool) && p < |was.prods| && |gaps| == was.Count() && pool == BeforeProbe(was, p, gaps, 0)
      requires forall g, i :: 0 <= g < |gaps| && 0 <= i < |gaps[g]| ==> ByOthers(p, gaps[g][i])
      modifies this
      ensures M.Inv(pool)
      ensures Acquired(was, p, gaps, f)
      ensures if f.Some? then SoleOwner(pool, p, f.value) else pool == BeforeProbe(was, p, gaps, |gaps|)
    {
      for i := 0 to |gaps|
        invariant M.Inv(pool) && pool == BeforeProbe(was, p, gaps, i) && InUse(was, p, gaps, i)
      {
        var claimed := ProbeFrame(p, gaps, i, was);
        if claimed {
          return Some(i);
        }
      }
      return None;
    }

    method MpAcquire(p: nat, gaps: seq<seq<M.Step>>) returns (f: Option<nat>)
      requires M.Inv(pool) && p < |pool.prods| && pool.prods[p].Idle? && |gaps| == pool.Count()
      requires forall g, i :: 0 <= g < |gaps| && 0 <= i < |gaps[g]| ==> ByOthers(p, gaps[g][i])
      modifies this
      ensures M.Inv(pool) && p < |pool.prods| && Acquired(old(pool), p, gaps, f)
      ensures if f.Some? then SoleOwner(pool, p, f.value) else pool.prods[p].Idle?
    {
      ghost var was := pool;
      Advance(p, M.Start(p));
      f := ProbeFrames(p, gaps, was);
      if f.None? {
        Advance(p, M.GiveUp(p));
      }
    }

    // The producers run for a while.
    method ProducersRun(others: seq<M.Step>)
      requires M.Inv(pool) && !pool.cons.Waiting? && forall i :: 0 <= i < |others| ==> ByProducer(others[i])
      modifies this
      ensures M.Inv(pool) && pool == AfterGap(old(pool), others)
      ensures pool.Count() == old(pool.Count()) && pool.cons == old(pool.cons)
    {
      for i := 0 to |others|
        invariant M.Inv(pool) && pool.Count() == old(pool.Count()) && pool.cons == old(pool.cons)
        invariant AfterGap(pool, others[i..]) == AfterGap(old(pool), others)
      {
        assert others[i..][0] == others[i] && others[i..][1..] == others[i + 1..];
        if M.Enabled(pool, others[i]) {
          M.StepInv(pool, others[i]);
          pool := M.Apply(pool, others[i]);
        }
      }
    }

    // One look of the scan, behind its gap
    method LookAt(gaps: seq<seq<M.Step>>, f: nat, ghost was: M.Pool) returns (found: bool)
      requires M.Inv(pool) && f < |gaps| == was.Count() && pool == BeforeScan(was, gaps, f)
      requires forall i :: 0 <= i < |gaps[f]| ==> ByProducer(gaps[f][i])
      modifies this
      ensures M.Inv(pool) && pool.Count() == |gaps| && found == (WhenScanned(was, gaps, f).refs[f] >= 2)
      ensures if found then pool.cons == M.Picked(f)
              else f + 1 < |gaps| && pool == BeforeScan(was, gaps, f + 1)
    {
      ProducersRun(gaps[f]);
      M.StepInv(pool, M.Scan);
      pool := M.Apply(pool, M.Scan);
      found := pool.cons.Picked?;
      assert M.Scans(pool);
    }

    // The frame is taken out of the count and the mutex released
    method TakeOut(f: nat)
      requires M.Inv(pool) && pool.cons == M.Picked(f)
      modifies this
      ensures M.Inv(pool) && pool.cons == M.Holding(f) && f < pool.Count() && pool.refs[f] == 2
    {
      M.StepInv(pool, M.Lower);
      pool := M.Apply(pool, M.Lower);
      M.StepInv(pool, M.Leave);
      pool := M.Apply(pool, M.Leave);
    }

    // The scan of dequeue, once the pending test has passed: it always ends on a published frame.
    method MpScan(gaps: seq<seq<M.Step>>) returns (f: nat)
      requires M.Inv(pool) && pool.cons == M.Scanning(0) && |gaps| == pool.Count()
      requires forall g, i :: 0 <= g < |gaps| && 0 <= i < |gaps[g]| ==> ByProducer(gaps[g][i])
      modifies this
      ensures M.Inv(pool) && FirstPublished(old(pool), gaps, f)
      ensures pool.cons == M.Holding(f) && f < pool.Count() && pool.refs[f] == 2
    {
      f := 0;
      ghost var was := pool;
      assert M.Scans(pool);
      while true
        invariant M.Inv(pool) && f < |gaps| && pool == BeforeScan(was, gaps, f)
        invariant forall i :: 0 <= i < f ==> WhenScanned(was, gaps, i).refs[i] < 2
        decreases |gaps| - f
      {
        var found := LookAt(gaps, f, was);
        if found {
          break;
        }
        f := f + 1;
      }
      TakeOut(f);
    }
  }
}

/**
 The multi-producer single-consumer side of `libbb/bb_pool.c`, one atomic operation per step.
 Any number of producers claim the first free frame, publish it by raising its reference count
 from 1 to 2 and then count it in `mp_pending` under the mutex; the consumer waits on the
 condition variable, scans for a published frame, and releases it before its next dequeue.
 A waiting consumer may also wake spuriously.
 */
module MpPool {
  import opened Arith

  datatype Producer =
    | Idle
    | Probing(i: nat)      // acquire: CAS on frame i next
    | Owns(f: nat)         // acquire returned frame f
    | Bumped               // enqueue: reference count raised, mutex wanted
    | Inside               // enqueue: mutex held, pending not raised yet
    | Counted              // enqueue: pending raised, signal next
    | Signalled            // enqueue: signalled, unlock next

  datatype Consumer =
    | Resting
    | Locking              // dequeue: mutex wanted
    | Checking             // dequeue: mutex held, pending test next
    | Waiting              // dequeue: blocked in cond_wait, mutex released
    | Waking               // dequeue: woken, mutex wanted again
    | Scanning(i: nat)     // dequeue: looks at frame i next
    | Picked(f: nat)       // dequeue: frame f found, pending not lowered yet
    | Leaving(f: nat)      // dequeue: pending lowered, unlock next
    | MissLeaving          // dequeue: nothing found, unlock and return NULL next
    | Holding(f: nat)      // dequeue returned frame f

  datatype Mutex = Free | ByProducer(p: nat) | ByConsumer

  datatype Pool = Pool(refs: seq<nat>, pending: int, mutex: Mutex, prods: seq<Producer>, cons: Consumer) {
    function Count(): nat { |refs| }

    predicate Held(i: nat) { cons == Leaving(i) || cons == Holding(i) }
  }

  function Init(frames: nat, producers: nat): Pool {
    Pool(seq(frames, i => 0), 0, Free, seq(producers, p => Idle), Resting)
  }

  // ---- Atomic steps ----

  datatype Step =
    | Start(p: nat) | Cas(p: nat) | GiveUp(p: nat)
    | Bump(p: nat) | Lock(p: nat) | CountUp(p: nat) | Signal(p: nat) | Unlock(p: nat)
    | Enter | TakeLock | Check | Spurious | Scan | Lower | Leave | MissLower | MissLeave | Release

  // The mutex admits `step`: only the two lock operations can block.
  predicate Enabled(s: Pool, step: Step) {
    match step
    case Start(p) => p < |s.prods| && s.prods[p].Idle?
    case Cas(p) => p < |s.prods| && s.prods[p].Probing? && s.prods[p].i < s.Count()
    case GiveUp(p) => p < |s.prods| && s.prods[p].Probing? && s.prods[p].i >= s.Count()
    case Bump(p) => p < |s.prods| && s.prods[p].Owns? && s.prods[p].f < s.Count()
    case Lock(p) => p < |s.prods| && s.prods[p].Bumped? && s.mutex.Free?
    case CountUp(p) => p < |s.prods| && s.prods[p].Inside?
    case Signal(p) => p < |s.prods| && s.prods[p].Counted?
    case Unlock(p) => p < |s.prods| && s.prods[p].Signalled?
    case Enter => s.cons.Resting?
    case TakeLock => (s.cons.Locking? || s.cons.Waking?) && s.mutex.Free?
    case Check => s.cons.Checking?
    case Spurious => s.cons.Waiting?
    case Scan => s.cons.Scanning? && s.cons.i < s.Count()
    case Lower => s.cons.Picked?
    case Leave => s.cons.Leaving?
    case MissLower => s.cons.Scanning? && s.cons.i >= s.Count()
    case MissLeave => s.cons.MissLeaving?
    case Release => s.cons.Holding? && s.cons.f < s.Count()
  }

  function Apply(s: Pool, step: Step): Pool
    requires Enabled(s, step)
  {
    match step
    case Start(p) => s.(prods := s.prods[p := Probing(0)])
    case Cas(p) =>
      var i := s.prods[p].i;
      var free := s.refs[i] == 0;
      s.(refs := if free then s.refs[i := 1] else s.refs, prods := s.prods[p := if free then Owns(i) else Probing(i + 1)])
    case GiveUp(p) => s.(prods := s.prods[p := Idle])
    case Bump(p) =>
      var f := s.prods[p].f;
      s.(refs := s.refs[f := s.refs[f] + 1], prods := s.prods[p := Bumped])
    case Lock(p) => s.(mutex := ByProducer(p), prods := s.prods[p := Inside])
    case CountUp(p) => s.(pending := s.pending + 1, prods := s.prods[p := Counted])
    case Signal(p) =>
      s.(prods := s.prods[p := Signalled], cons := if s.cons.Waiting? then Waking else s.cons)
    case Unlock(p) => s.(mutex := Free, prods := s.prods[p := Idle])
    case Enter => s.(cons := Locking)
    case TakeLock => s.(mutex := ByConsumer, cons := Checking)
    case Check =>
      s.(mutex := if s.pending == 0 then Free else s.mutex, cons := if s.pending == 0 then Waiting else Scanning(0))
    case Spurious => s.(cons := Waking)
    case Scan => s.(cons := if s.refs[s.cons.i] >= 2 then Picked(s.cons.i) else Scanning(s.cons.i + 1))
    case Lower => s.(pending := s.pending - 1, cons := Leaving(s.cons.f))
    case Leave => s.(mutex := Free, cons := Holding(s.cons.f))
    case MissLower => s.(pending := s.pending - 1, cons := MissLeaving)
    case MissLeave => s.(mutex := Free, cons := Resting)
    case Release => s.(refs := s.refs[s.cons.f := 0], cons := Resting)
  }

  // ---- Invariant ----

  // Published frames that the consumer does not hold.
  function Ready(s: Pool): set<nat> {
    set i | 0 <= i < s.Count() && s.refs[i] >= 2 && !s.Held(i)
  }

  // Enqueues past the reference count bump but before the pending bump.
  function InFlight(s: Pool): set<nat> {
    set p | 0 <= p < |s.prods| && (s.prods[p].Bumped? || s.prods[p].Inside?)
  }

  ghost predicate Counting(s: Pool) {
    s.pending >= 0 && |Ready(s)| == s.pending + |InFlight(s)|
  }

  ghost predicate Ownership(s: Pool) {
    && (forall i :: 0 <= i < s.Count() ==> s.refs[i] <= 2)
    && (forall p :: 0 <= p < |s.prods| && s.prods[p].Owns? ==> s.prods[p].f < s.Count() && s.refs[s.prods[p].f] == 1)
    && (forall p, q :: 0 <= p < q < |s.prods| && s.prods[p].Owns? && s.prods[q].Owns? ==> s.prods[p].f != s.prods[q].f)
    && (forall i :: 0 <= i < s.Count() && s.refs[i] == 1 ==> exists p :: 0 <= p < |s.prods| && s.prods[p] == Owns(i))
  }

  ghost predicate Locked(s: Pool) {
    && (forall p :: 0 <= p < |s.prods| ==>
          (s.mutex == ByProducer(p) <==> s.prods[p].Inside? || s.prods[p].Counted? || s.prods[p].Signalled?))
    && (s.mutex.ByProducer? ==> s.mutex.p < |s.prods|)
    && (s.mutex == ByConsumer <==> s.cons.Checking? || s.cons.Scanning? || s.cons.Picked? || s.cons.Leaving?)
  }

  // A frame the running scan has not passed yet is ready, so the scan cannot come up empty.
  ghost predicate ReadyAhead(s: Pool, i: nat) {
    exists j :: i <= j < s.Count() && s.refs[j] >= 2
  }

  ghost predicate Scans(s: Pool) {
    && !s.cons.MissLeaving?
    && (s.cons.Scanning? ==> s.pending >= 1 && ReadyAhead(s, s.cons.i))
    && (s.cons.Picked? ==> s.pending >= 1)
    && (s.cons.Picked? || s.cons.Leaving? || s.cons.Holding? ==> s.cons.f < s.Count() && s.refs[s.cons.f] == 2)
  }

  // A consumer left waiting has nothing to take, or its signal is already on the way.
  ghost predicate NoLostWakeup(s: Pool) {
    s.cons.Waiting? ==>
      s.pending == 0 || (s.mutex.ByProducer? && s.mutex.p < |s.prods| && s.prods[s.mutex.p].Counted?)
  }

  ghost predicate Inv(s: Pool) {
    Ownership(s) && Locked(s) && Scans(s) && NoLostWakeup(s) && Counting(s)
  }

  lemma InitInv(frames: nat, producers: nat)
    ensures Inv(Init(frames, producers))
  {
    assert Ready(Init(frames, producers)) == {};
    assert InFlight(Init(frames, producers)) == {};
  }

  lemma StepOwnership(s: Pool, step: Step)
    requires Inv(s) && Enabled(s, step)
    ensures Ownership(Apply(s, step))
  {
    if step.Cas? || step.Bump? || step.Release? {
      FrameOwnership(s, step);
    } else {
      var t := Apply(s, step);
      assert t.refs == s.refs;
      assert forall p :: 0 <= p < |s.prods| ==> (t.prods[p].Owns? <==> s.prods[p].Owns?) && (s.prods[p].Owns? ==> t.prods[p] == s.prods[p]);
      SameOwnership(s, t);
    }
  }

  lemma SameOwnership(s: Pool, t: Pool)
    requires Ownership(s) && t.refs == s.refs && |t.prods| == |s.prods|
    requires forall p :: 0 <= p < |s.prods| ==>
               (t.prods[p].Owns? <==> s.prods[p].Owns?) && (s.prods[p].Owns? ==> t.prods[p] == s.prods[p])
    ensures Ownership(t)
  {
    forall i | 0 <= i < t.Count() && t.refs[i] == 1 ensures exists p :: 0 <= p < |t.prods| && t.prods[p] == Owns(i) {
      var p :| 0 <= p < |s.prods| && s.prods[p] == Owns(i);
      assert t.prods[p] == Owns(i);
    }
  }

  lemma FrameOwnership(s: Pool, step: Step)
    requires Inv(s) && Enabled(s, step) && (step.Cas? || step.Bump? || step.Release?)
    ensures Ownership(Apply(s, step))
  {
    var t := Apply(s, step);
    forall i | 0 <= i < t.Count() && t.refs[i] == 1 ensures exists p :: 0 <= p < |t.prods| && t.prods[p] == Owns(i) {
      if step.Cas? && t.prods[step.p] == Owns(i) {
      } else {
        var p :| 0 <= p < |s.prods| && s.prods[p] == Owns(i);
        assert t.prods[p] == Owns(i);
      }
    }
  }

  lemma StepLocked(s: Pool, step: Step)
    requires Inv(s) && Enabled(s, step)
    ensures Locked(Apply(s, step)) && NoLostWakeup(Apply(s, step))
  {
  }

  lemma StepScans(s: Pool, step: Step)
    requires Inv(s) && Enabled(s, step)
    ensures Scans(Apply(s, step))
  {
    var t := Apply(s, step);
    if step.Check? && t.cons.Scanning? {
      assert Ready(s) != {};
      var j :| j in Ready(s);
      assert t.refs[j] >= 2;
    } else if s.cons.Scanning? && !step.MissLower? {
      var j :| s.cons.i <= j < s.Count() && s.refs[j] >= 2;
      assert t.refs[j] >= 2;
    }
  }

  lemma CountBump(s: Pool, p: nat)
    requires Inv(s) && Enabled(s, Bump(p))
    ensures Counting(Apply(s, Bump(p)))
  {
    var t := Apply(s, Bump(p));
    assert Ready(t) == Ready(s) + {s.prods[p].f};
    assert InFlight(t) == InFlight(s) + {p};
  }

  lemma CountCountUp(s: Pool, p: nat)
    requires Inv(s) && Enabled(s, CountUp(p))
    ensures Counting(Apply(s, CountUp(p)))
  {
    var t := Apply(s, CountUp(p));
    assert Ready(t) == Ready(s);
    assert InFlight(s) == InFlight(t) + {p};
  }

  lemma CountLower(s: Pool)
    requires Inv(s) && Enabled(s, Lower)
    ensures Counting(Apply(s, Lower))
  {
    var t := Apply(s, Lower);
    assert Ready(s) == Ready(t) + {s.cons.f};
    assert InFlight(t) == InFlight(s);
  }

  lemma CountCas(s: Pool, p: nat)
    requires Inv(s) && Enabled(s, Cas(p))
    ensures Counting(Apply(s, Cas(p)))
  {
    var t := Apply(s, Cas(p));
    assert Ready(t) == Ready(s);
    assert InFlight(t) == InFlight(s);
  }

  lemma StepCounting(s: Pool, step: Step)
    requires Inv(s) && Enabled(s, step)
    ensures Counting(Apply(s, step))
  {
    match step {
      case Cas(p) => CountCas(s, p);
      case Bump(p) => CountBump(s, p);
      case CountUp(p) => CountCountUp(s, p);
      case Lower => CountLower(s);
      case _ => CountKept(s, step);
    }
  }

  lemma CountKept(s: Pool, step: Step)
    requires Inv(s) && Enabled(s, step)
    requires !step.Cas? && !step.Bump? && !step.CountUp? && !step.Lower?
    ensures Counting(Apply(s, step))
  {
    var t := Apply(s, step);
    assert !step.MissLower?;
    assert InFlight(t) == InFlight(s);
    assert Ready(t) == Ready(s);
  }

  lemma StepInv(s: Pool, step: Step)
    requires Inv(s) && Enabled(s, step)
    ensures Inv(Apply(s, step))
  {
    StepOwnership(s, step);
    StepLocked(s, step);
    StepScans(s, step);
    StepCounting(s, step);
  }

  // ---- Whole runs ----

  predicate Possible(s: Pool, steps: seq<Step>)
    decreases |steps|
  {
    steps == [] || (Enabled(s, steps[0]) && Possible(Apply(s, steps[0]), steps[1..]))
  }

  function Exec(s: Pool, steps: seq<Step>): Pool
    requires Possible(s, steps)
    decreases |steps|
  {
    if steps == [] then s else Exec(Apply(s, steps[0]), steps[1..])
  }

  lemma {:induction false} RunInv(s: Pool, steps: seq<Step>)
    requires Inv(s) && Possible(s, steps)
    ensures Inv(Exec(s, steps))
    decreases |steps|
  {
    if steps != [] {
      StepInv(s, steps[0]);
      RunInv(Apply(s, steps[0]), steps[1..]);
    }
  }

  /**
   In every interleaving of any number of producers: the published frames not held by the consumer
   are exactly those counted in mp_pending plus those of enqueues between their two bumps.
   */
  lemma PendingCountsFrames(frames: nat, producers: nat, steps: seq<Step>)
    requires Possible(Init(frames, producers), steps)
    ensures var t := Exec(Init(frames, producers), steps);
            |Ready(t)| == t.pending + |InFlight(t)| && t.pending >= 0
  {
    InitInv(frames, producers);
    RunInv(Init(frames, producers), steps);
  }

  /**
   Dequeue never returns NULL: at its end the scan cannot still be looking, although it tests the
   frames one by one while producers publish, and although it may pick a frame whose own enqueue
   has not raised mp_pending yet.
   */
  lemma DequeueNeverNull(frames: nat, producers: nat, steps: seq<Step>)
    requires Possible(Init(frames, producers), steps)
    ensures var t := Exec(Init(frames, producers), steps);
            !t.cons.MissLeaving? && !Enabled(t, MissLower)
  {
    InitInv(frames, producers);
    RunInv(Init(frames, producers), steps);
  }

  /** No wakeup is lost: a waiting consumer with work pending has its signal held by the mutex owner. */
  lemma WaitingMeansEmpty(frames: nat, producers: nat, steps: seq<Step>)
    requires Possible(Init(frames, producers), steps)
    ensures var t := Exec(Init(frames, producers), steps);
            t.cons.Waiting? && t.pending != 0 ==> exists p :: Enabled(t, Signal(p)) && t.mutex == ByProducer(p)
  {
    InitInv(frames, producers);
    RunInv(Init(frames, producers), steps);
    var t := Exec(Init(frames, producers), steps);
    if t.cons.Waiting? && t.pending != 0 {
      assert Enabled(t, Signal(t.mutex.p));
    }
  }

  // ---- Conservation ----

  function Busy(s: Pool): set<nat> {
    set i | 0 <= i < s.Count() && s.refs[i] != 0
  }

  function Owners(s: Pool): set<nat> {
    set p | 0 <= p < |s.prods| && s.prods[p].Owns?
  }

  function Owned(s: Pool): set<nat> {
    set i | 0 <= i < s.Count() && s.refs[i] == 1
  }

  // The frame in the consumer's hands, if any.
  function Taken(s: Pool): set<nat> {
    if s.cons.Leaving? || s.cons.Holding? then {s.cons.f} else {}
  }

  lemma BusyParts(s: Pool)
    requires Inv(s)
    ensures Busy(s) == Owned(s) + Ready(s) + Taken(s)
  {
    assert Ownership(s) && Scans(s);
  }

  lemma PartsApart(s: Pool)
    requires Inv(s)
    ensures Owned(s) !! Ready(s) && Owned(s) + Ready(s) !! Taken(s)
  {
    assert Scans(s);
  }

  lemma PartsSize(a: set<nat>, b: set<nat>, c: set<nat>)
    requires a !! b && a + b !! c
    ensures |a + b + c| == |a| + |b| + |c|
  {
    assert |a + b| == |a| + |b|;
  }

  /** Every frame is free, being filled by one producer, published, or held by the consumer: none leaks. */
  lemma FramesConserved(s: Pool)
    requires Inv(s)
    ensures |Busy(s)| == |Owners(s)| + |Ready(s)| + (if s.cons.Leaving? || s.cons.Holding? then 1 else 0)
  {
    BusyParts(s);
    PartsApart(s);
    PartsSize(Owned(s), Ready(s), Taken(s));
    OwnersOwn(s);
  }

  function FrameOf(p: Producer): nat {
    if p.Owns? then p.f else 0
  }

  lemma OwnersOwn(s: Pool)
    requires Ownership(s)
    ensures |Owners(s)| == |Owned(s)|
  {
    forall i | i in Owned(s) ensures exists p :: p in Owners(s) && FrameOf(s.prods[p]) == i {
      var p :| 0 <= p < |s.prods| && s.prods[p] == Owns(i);
      assert p in Owners(s);
    }
    ImageSize(Owners(s), Owned(s), (p: nat) => if p < |s.prods| then FrameOf(s.prods[p]) else 0);
  }
}

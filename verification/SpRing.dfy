/**
 The single-producer single-consumer ring of `libbb/bb_pool.c`, one atomic
 operation per step.  `w` and `r` are `write_idx` and `read_idx` (unbounded here),
 `refs` the frame reference counts and `data` the frame contents.  Each thread's
 program counter carries the index values it loaded, which may be stale by the time it uses them.

 Three history fields have no counterpart at run time: `committed` and `taken` log the contents of
 every committed and every dequeued frame, in order, and `held` names the absolute indices of the
 frames the consumer has dequeued and not released yet.
 */
module SpRing {
  import opened Arith

  datatype Producer =
    | PIdle
    | PSawW(w: nat)              // acquire: write_idx loaded
    | PSawR(w: nat, r: nat)      // acquire: both loaded, window test passed, CAS next
    | POwns                      // acquire returned frames[w % count]

  datatype Consumer =
    | CIdle
    | CSawW(w: nat)              // dequeue: write_idx loaded
    | CSawR(r: nat)              // dequeue: both loaded and r < w, refcount test next
    | CPassed(r: nat)            // dequeue: refcount test passed, fetch_add next

  datatype Ring<T> = Ring(
    refs: seq<nat>, data: seq<T>, w: nat, r: nat,
    prod: Producer, cons: Consumer, held: set<nat>, committed: seq<T>, taken: seq<T>)
  {
    function Count(): nat { |refs| }

    // The frame an absolute index falls on.
    function Slot(k: nat): nat
      requires Count() > 0
    {
      Mod(k, Count())
    }
  }

  function Init<T>(n: nat, x: T): Ring<T>
    requires n > 0
  {
    Ring(seq(n, i => 0), seq(n, i => x), 0, 0, PIdle, CIdle, {}, [], [])
  }

  // ---- Atomic steps ----

  datatype Step<T> =
    | LoadW | LoadR | Cas | Fill(x: T) | Commit | Abort
    | TakeLoadW | TakeLoadR | TakeCheck | TakeBump | Release(k: nat)

  predicate Enabled<T>(s: Ring<T>, step: Step<T>) {
    match step
    case LoadW => s.prod.PIdle?
    case LoadR => s.prod.PSawW?
    case Cas => s.prod.PSawR?
    case Fill(_) => s.prod.POwns?
    case Commit => s.prod.POwns?
    case Abort => s.prod.POwns?
    case TakeLoadW => s.cons.CIdle?
    case TakeLoadR => s.cons.CSawW?
    case TakeCheck => s.cons.CSawR?
    case TakeBump => s.cons.CPassed?
    case Release(k) => s.cons.CIdle? && k in s.held
  }

  function Apply<T>(s: Ring<T>, step: Step<T>): Ring<T>
    requires s.Count() > 0 && |s.data| == s.Count() && Enabled(s, step)
  {
    match step
    case LoadW => s.(prod := PSawW(s.w))
    case LoadR => s.(prod := if s.prod.w - s.r >= s.Count() then PIdle else PSawR(s.prod.w, s.r))
    case Cas =>
      var i := s.Slot(s.prod.w);
      var free := s.refs[i] == 0;
      s.(refs := if free then s.refs[i := 1] else s.refs, prod := if free then POwns else PIdle)
    case Fill(x) => s.(data := s.data[s.Slot(s.w) := x])
    case Commit => s.(w := s.w + 1, committed := s.committed + [s.data[s.Slot(s.w)]], prod := PIdle)
    case Abort => s.(refs := s.refs[s.Slot(s.w) := 0], prod := PIdle)
    case TakeLoadW => s.(cons := CSawW(s.w))
    case TakeLoadR => s.(cons := if s.r >= s.cons.w then CIdle else CSawR(s.r))
    case TakeCheck => s.(cons := if s.refs[s.Slot(s.cons.r)] < 1 then CIdle else CPassed(s.cons.r))
    case TakeBump => 
      s.(r := s.r + 1, held := s.held + {s.cons.r}, taken := s.taken + [s.data[s.Slot(s.cons.r)]], cons := CIdle)
    case Release(k) => s.(refs := s.refs[s.Slot(k) := 0], held := s.held - {k})
  }

  // ---- Invariant ----

  // Index k occupies a frame: queued, held by the consumer, or being filled by the producer.
  ghost predicate Live<T>(s: Ring<T>, k: nat) {
    k in s.held || s.r <= k < s.w || (s.prod.POwns? && k == s.w)
  }

  ghost predicate Shape<T>(s: Ring<T>) {
    && s.Count() > 0 && |s.data| == s.Count()
    && |s.committed| == s.w && |s.taken| == s.r <= s.w
    && (forall k :: k in s.held ==> k < s.r)
    && (forall i :: 0 <= i < s.Count() ==> s.refs[i] <= 1)
  }

  // No frame is owned twice, and the reference counts say exactly which frames are owned.
  ghost predicate Ownership<T>(s: Ring<T>)
    requires Shape(s)
  {
    && (forall a: nat, b: nat :: Live(s, a) && Live(s, b) && a != b ==> s.Slot(a) != s.Slot(b))
    && (forall a: nat :: Live(s, a) ==> s.refs[s.Slot(a)] == 1)
    && (forall i :: 0 <= i < s.Count() && s.refs[i] == 1 ==> exists a: nat :: Live(s, a) && s.Slot(a) == i)
  }

  ghost predicate Contents<T>(s: Ring<T>)
    requires Shape(s)
  {
    && s.taken <= s.committed
    && (forall k: nat :: k in s.held || s.r <= k < s.w ==> s.data[s.Slot(k)] == s.committed[k])
  }

  // What the threads' stale copies still guarantee.
  ghost predicate Registers<T>(s: Ring<T>)
    requires Shape(s)
  {
    && (match s.prod
        case PIdle => true
        case PSawW(w) => w == s.w
        case PSawR(w, r) => w == s.w && r <= s.r && w - r < s.Count()
        case POwns => s.w - s.r < s.Count())
    && (match s.cons
        case CIdle => true
        case CSawW(w) => s.r <= w <= s.w
        case CSawR(r) => r == s.r < s.w
        case CPassed(r) => r == s.r < s.w)
    && s.w - s.r <= s.Count()
  }

  ghost predicate Inv<T>(s: Ring<T>) {
    Shape(s) && Ownership(s) && Contents(s) && Registers(s)
  }

  lemma InitInv<T>(n: nat, x: T)
    requires n > 0
    ensures Inv(Init(n, x))
  {
  }

  // The frame w falls on is free exactly when no live index falls on it, so claiming it keeps ownership exclusive.
  lemma ClaimInv<T>(s: Ring<T>)
    requires Inv(s) && s.prod.PSawR? && s.refs[s.Slot(s.w)] == 0
    ensures Inv(Apply(s, Cas))
  {
    var t := Apply(s, Cas);
    assert forall a: nat :: Live(t, a) <==> Live(s, a) || a == s.w;
  }

  // Freeing the frame of one live index leaves the others alone.
  lemma FreeInv<T>(s: Ring<T>, t: Ring<T>, k: nat)
    requires Inv(s) && Live(s, k)
    requires t.refs == s.refs[s.Slot(k) := 0] && t.data == s.data && t.committed == s.committed
    requires t.w == s.w && t.r == s.r && t.taken == s.taken && t.held <= s.held
    requires forall a: nat :: Live(t, a) <==> Live(s, a) && a != k
    ensures Shape(t) && Ownership(t)
  {
  }

  // Steps that move an index between queued, held and filling without changing who is live.
  lemma KeepInv<T>(s: Ring<T>, t: Ring<T>)
    requires Inv(s) && Shape(t) && t.refs == s.refs
    requires forall a: nat :: Live(t, a) <==> Live(s, a)
    ensures Ownership(t)
  {
  }

  lemma BumpInv<T>(s: Ring<T>)
    requires Inv(s) && s.cons.CPassed?
    ensures Inv(Apply(s, TakeBump))
  {
    var t := Apply(s, TakeBump);
    assert Shape(t);
    KeepInv(s, t);
  }

  lemma FillInv<T>(s: Ring<T>, x: T)
    requires Inv(s) && s.prod.POwns?
    ensures Inv(Apply(s, Fill(x)))
  {
    var t := Apply(s, Fill(x));
    assert Live(s, s.w);
    KeepInv(s, t);
  }

  lemma CommitInv<T>(s: Ring<T>)
    requires Inv(s) && s.prod.POwns?
    ensures Inv(Apply(s, Commit))
  {
    var t := Apply(s, Commit);
    KeepInv(s, t);
  }

  // Loads and tests change only the thread's own registers.
  lemma LoadInv<T>(s: Ring<T>, step: Step<T>)
    requires Inv(s) && Enabled(s, step)
    requires step.LoadW? || step.LoadR? || step.TakeLoadW? || step.TakeLoadR? || step.TakeCheck?
             || (step.Cas? && s.refs[s.Slot(s.prod.w)] != 0)
    ensures Inv(Apply(s, step))
  {
    var t := Apply(s, step);
    LoadKeeps(s, step);
    KeepInv(s, t);
  }

  lemma LoadKeeps<T>(s: Ring<T>, step: Step<T>)
    requires Shape(s) && Registers(s) && Enabled(s, step)
    requires step.LoadW? || step.LoadR? || step.TakeLoadW? || step.TakeLoadR? || step.TakeCheck?
             || (step.Cas? && s.refs[s.Slot(s.prod.w)] != 0)
    ensures var t := Apply(s, step);
            && t == s.(prod := t.prod, cons := t.cons) && !t.prod.POwns? == !s.prod.POwns?
            && Shape(t) && Registers(t)
  {
  }

  lemma StepInv<T>(s: Ring<T>, step: Step<T>)
    requires Inv(s) && Enabled(s, step)
    ensures Inv(Apply(s, step))
  {
    if step.Cas? && s.refs[s.Slot(s.prod.w)] == 0 {
      ClaimInv(s);
    } else if step.Fill? {
      FillInv(s, step.x);
    } else if step.Commit? {
      CommitInv(s);
    } else if step.Abort? {
      FreeInv(s, Apply(s, step), s.w);
    } else if step.TakeBump? {
      BumpInv(s);
    } else if step.Release? {
      FreeInv(s, Apply(s, step), step.k);
    } else {
      LoadInv(s, step);
    }
  }

  // ---- Whole runs ----

  predicate Possible<T>(s: Ring<T>, steps: seq<Step<T>>)
    requires s.Count() > 0 && |s.data| == s.Count()
    decreases |steps|
  {
    steps == [] || (Enabled(s, steps[0]) && Possible(Apply(s, steps[0]), steps[1..]))
  }

  function Exec<T>(s: Ring<T>, steps: seq<Step<T>>): Ring<T>
    requires s.Count() > 0 && |s.data| == s.Count() && Possible(s, steps)
    decreases |steps|
  {
    if steps == [] then s else Exec(Apply(s, steps[0]), steps[1..])
  }

  lemma {:induction false} RunInv<T>(s: Ring<T>, steps: seq<Step<T>>)
    requires Inv(s) && Possible(s, steps)
    ensures Inv(Exec(s, steps)) && Exec(s, steps).Count() == s.Count()
    decreases |steps|
  {
    if steps != [] {
      StepInv(s, steps[0]);
      RunInv(Apply(s, steps[0]), steps[1..]);
    }
  }

  /** FIFO: from an empty ring, in every interleaving, what was dequeued is a prefix of what was committed. */
  lemma Fifo<T>(n: nat, x: T, steps: seq<Step<T>>)
    requires n > 0 && Possible(Init(n, x), steps)
    ensures var t := Exec(Init(n, x), steps);
            t.taken <= t.committed && |t.taken| == t.r <= t.w == |t.committed| <= t.r + n
  {
    InitInv(n, x);
    RunInv(Init(n, x), steps);
  }

  // ---- What the invariant gives the callers ----

  /** No frame is owned by both threads, and a held frame keeps the contents that were committed. */
  lemma ExclusiveFrames<T>(s: Ring<T>, k: nat)
    requires Inv(s) && (k in s.held || s.r <= k < s.w)
    ensures s.data[s.Slot(k)] == s.committed[k]
    ensures s.prod.POwns? ==> s.Slot(k) != s.Slot(s.w)
  {
    assert Live(s, k) && (s.prod.POwns? ==> Live(s, s.w));
  }

  /** The reference count test in dequeue always passes. */
  lemma CheckPasses<T>(s: Ring<T>)
    requires Inv(s) && s.cons.CSawR?
    ensures Apply(s, TakeCheck).cons == CPassed(s.r)
  {
    assert Live(s, s.r);
  }

  /** The window test of dequeue refuses exactly a ring that was empty when the write index was loaded. */
  lemma TakeRefusal<T>(s: Ring<T>)
    requires Inv(s) && s.cons.CSawW?
    ensures Apply(s, TakeLoadR).cons.CIdle? <==> s.r == s.cons.w
  {
  }

  // The consumer never starts a dequeue while it holds a frame, as the codec thread does not.
  ghost predicate SingleHolder<T>(s: Ring<T>) {
    && (s.held == {} || (s.r > 0 && s.held == {s.r - 1}))
    && (!s.cons.CIdle? ==> s.held == {})
  }

  lemma StepSingleHolder<T>(s: Ring<T>, step: Step<T>)
    requires Inv(s) && Enabled(s, step) && SingleHolder(s) && (step.TakeLoadW? ==> s.held == {})
    ensures SingleHolder(Apply(s, step))
  {
  }

  /** The window test of acquire is exact: it refuses only a ring that is full at that moment. */
  lemma WindowRefusal<T>(s: Ring<T>)
    requires Inv(s) && s.prod.PSawW?
    ensures Apply(s, LoadR).prod.PIdle? <==> s.w - s.r == s.Count()
  {
  }

  /**
   The compare-and-swap of acquire fails exactly when the frame it wants is the one the consumer
   still holds, which forces the ring to be one short of full.
   */
  lemma CasRefusal<T>(s: Ring<T>)
    requires Inv(s) && SingleHolder(s) && s.prod.PSawR?
    ensures Apply(s, Cas).prod.PIdle? <==> (s.held != {} && s.w - s.r == s.Count() - 1)
    ensures Apply(s, Cas).prod.PIdle? ==> s.Slot(s.w) == s.Slot(s.r - 1)
  {
    var n := s.Count();
    if s.refs[s.Slot(s.w)] != 0 {
      var a: nat :| Live(s, a) && s.Slot(a) == s.Slot(s.w);
      SameFrame(a, s.w, n);
    }
    if s.held != {} && s.w - s.r == n - 1 {
      assert Live(s, s.r - 1);
    }
  }

  // ---- Conservation ----

  function Busy<T>(s: Ring<T>): set<nat> {
    set i | 0 <= i < s.Count() && s.refs[i] != 0
  }

  function Owners<T>(s: Ring<T>): set<nat>
    requires s.r <= s.w
  {
    s.held + Range(s.r, s.w) + (if s.prod.POwns? then {s.w} else {})
  }

  /** Every frame is free, queued, held by the consumer or owned by the producer: none leaks, none counts twice. */
  lemma FramesConserved<T>(s: Ring<T>)
    requires Inv(s)
    ensures |Busy(s)| == |s.held| + (s.w - s.r) + (if s.prod.POwns? then 1 else 0)
  {
    var own := Owners(s);
    OwnersSize(s);
    OwnersLive(s);
    OwnersDistinct(s, own);
    BusyOwned(s, own);
    ImageSize(own, Busy(s), (k: nat) => s.Slot(k));
  }

  lemma OwnersSize<T>(s: Ring<T>)
    requires Inv(s)
    ensures |Owners(s)| == |s.held| + (s.w - s.r) + (if s.prod.POwns? then 1 else 0)
  {
    var queued := Range(s.r, s.w);
    assert s.held !! queued && |s.held + queued| == |s.held| + |queued|;
    assert s.w !in s.held + queued;
  }

  lemma OwnersLive<T>(s: Ring<T>)
    requires Inv(s)
    ensures forall a: nat :: a in Owners(s) <==> Live(s, a)
  {
  }

  lemma OwnersDistinct<T>(s: Ring<T>, own: set<nat>)
    requires Inv(s) && forall a: nat :: a in own <==> Live(s, a)
    ensures forall a, b :: a in own && b in own && a != b ==> s.Slot(a) != s.Slot(b)
    ensures forall a :: a in own ==> s.Slot(a) in Busy(s)
  {
  }

  lemma BusyOwned<T>(s: Ring<T>, own: set<nat>)
    requires Inv(s) && forall a: nat :: a in own <==> Live(s, a)
    ensures forall i :: i in Busy(s) ==> exists a :: a in own && s.Slot(a) == i
  {
  }
}

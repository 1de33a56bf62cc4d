/**
 Runs of the pipeline state by state, to say what happened on the way to a state.
 */
module AudioTrace {
  import opened AudioStream
  import opened AudioTheorems
  import opened AudioIntegrity

  // The states that a run goes through, the first and the last included.
  ghost predicate Trace(cfg: Config, ss: seq<Stream>, steps: seq<Step>) {
    && |ss| == |steps| + 1
    && forall k :: 0 <= k < |steps| ==> Enabled(cfg, ss[k], steps[k]) && ss[k + 1] == AudioStream.Apply(cfg, ss[k], steps[k])
  }

  function States(cfg: Config, s: Stream, steps: seq<Step>): seq<Stream>
    requires Possible(cfg, s, steps)
    decreases |steps|
  {
    if steps == [] then [s] else [s] + States(cfg, AudioStream.Apply(cfg, s, steps[0]), steps[1..])
  }

  /** Every run is a trace that ends in its last state. */
  lemma {:induction false} RunIsTrace(cfg: Config, s: Stream, steps: seq<Step>)
    requires Possible(cfg, s, steps)
    ensures var ss := States(cfg, s, steps);
            Trace(cfg, ss, steps) && ss[0] == s && ss[|steps|] == Exec(cfg, s, steps)
    decreases |steps|
  {
    if steps != [] {
      var t := AudioStream.Apply(cfg, s, steps[0]);
      RunIsTrace(cfg, t, steps[1..]);
      Prepended(cfg, s, States(cfg, t, steps[1..]), steps);
    }
  }

  lemma Prepended(cfg: Config, s: Stream, rest: seq<Stream>, steps: seq<Step>)
    requires steps != [] && Trace(cfg, rest, steps[1..]) && Enabled(cfg, s, steps[0]) && rest[0] == AudioStream.Apply(cfg, s, steps[0])
    ensures Trace(cfg, [s] + rest, steps)
  {
    var ss := [s] + rest;
    forall k | 0 <= k < |steps| ensures Enabled(cfg, ss[k], steps[k]) && ss[k + 1] == AudioStream.Apply(cfg, ss[k], steps[k]) {
      if k > 0 {
        assert steps[k] == steps[1..][k - 1] && ss[k] == rest[k - 1];
      }
    }
  }

  // From a first start.
  ghost predicate FromStart(cfg: Config, ss: seq<Stream>, steps: seq<Step>) {
    cfg.Valid() && Trace(cfg, ss, steps) && ss[0] == Init(cfg)
  }

  lemma {:induction false} TraceInv(cfg: Config, ss: seq<Stream>, steps: seq<Step>, n: nat)
    requires FromStart(cfg, ss, steps) && n <= |steps|
    ensures Inv(cfg, ss[n])
    decreases n
  {
    if n == 0 {
      InitInv(cfg);
    } else {
      TraceInv(cfg, ss, steps, n - 1);
      StepInv(cfg, ss[n - 1], steps[n - 1]);
    }
  }
}
